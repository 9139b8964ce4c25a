/**
 * The requester's two writes, as functions from the tables before to the answer
 * and the tables after: `api_crear_ticket` and `api_encuestas_create`.
 */
module Requester {
  import opened Wrappers
  import opened Text
  import opened Inputs
  import opened Durations
  import opened Tables
  import opened Listings

  /** `(f.mimetype or "").startswith("image/")` for a file that is present (a file with no name is falsy). */
  predicate IsImage(f: Upload)
    ensures IsImage(f) <==> f.filename != [] && |f.mimetype| >= 6 && f.mimetype[..6] == "image/"
  {
    f.filename != "" && StartsWith(f.mimetype, "image/")
  }

  /** The images among `files`, in order. */
  function Images(files: seq<Upload>): (r: seq<Upload>)
    ensures |r| <= |files|
  {
    if files == [] then []
    else (if IsImage(files[0]) then [files[0]] else []) + Images(files[1..])
  }

  /** The filter works file by file: the images of a concatenation are those of each part, in order. */
  lemma {:induction false} ImagesAppend(a: seq<Upload>, b: seq<Upload>)
    ensures Images(a + b) == Images(a) + Images(b)
    ensures |a| == 1 ==> Images(a) == if IsImage(a[0]) then a else []
    decreases |a|
  {
    if a == [] {
      assert a + b == b;
    } else {
      assert (a + b)[0] == a[0] && (a + b)[1..] == a[1..] + b;
      ImagesAppend(a[1..], b);
      if |a| == 1 {
        assert a[1..] == [];
      }
    }
  }

  /** `Images` keeps exactly the images: every one of them and nothing else. */
  lemma {:induction false} ImagesMembers(files: seq<Upload>)
    ensures forall f :: f in Images(files) <==> f in files && IsImage(f)
  {
    if files != [] {
      ImagesMembers(files[1..]);
      assert forall f :: f in files <==> f == files[0] || f in files[1..];
    }
  }

  /** The stored name of an image sent with a new ticket: the sanitised `f.filename or "img"`. */
  function TicketImageName(f: Upload): StoredName {
    TicketImage(Sanitize(if f.filename == "" then "img" else f.filename))
  }

  /** The attachment rows for the images among `files`, all linked to ticket `tid`. */
  function RequesterImages(tid: nat, files: seq<Upload>): (r: seq<Attachment>)
    ensures |r| == |Images(files)|
    ensures forall i :: 0 <= i < |r| ==> r[i] == Attachment(tid, TicketImageName(Images(files)[i]))
  {
    if files == [] then []
    else
      var rest := RequesterImages(tid, files[1..]);
      if IsImage(files[0]) then
        assert Images(files) == [files[0]] + Images(files[1..]);
        [Attachment(tid, TicketImageName(files[0]))] + rest
      else
        rest
  }

  /** `files[:3]`: the first three files sent. */
  function FirstThree(files: seq<Upload>): (r: seq<Upload>)
    ensures |r| <= 3 && |r| <= |files| && r == files[..|r|]
    ensures |files| >= 3 ==> |r| == 3
    ensures |files| < 3 ==> r == files
  {
    files[..Min(3, |files|)]
  }

  /** `tipo[:180]`. */
  function Subject(tipo: string): (r: string)
    ensures |r| <= 180 && |r| <= |tipo| && r == tipo[..|r|]
    ensures |r| == Min(180, |tipo|)
    ensures |tipo| <= 180 ==> r == tipo
  {
    tipo[..Min(180, |tipo|)]
  }

  /** The request fields pass the first two checks of `api_crear_ticket`. */
  predicate FieldsPresent(caller: Caller, tipoRaw: string, descRaw: string, nombreRaw: string) {
    caller.role == Requester && Strip(nombreRaw) != [] && Strip(tipoRaw) != [] && Strip(descRaw) != []
  }

  /** `if not area_id`: no user row, a NULL area or area 0. */
  predicate HasArea(area: Option<int>) {
    area.Some? && area.value != 0
  }

  /**
   * The checks of `api_crear_ticket`, in their order: the role, the requester name,
   * the type and description, the lifetime quota `limit` (answering with the count and
   * the limit), the RESUELTO tickets still owing a survey (answering with them), and
   * the caller's area. `area` is the caller's `users.area_id`.
   */
  function CreateRefusal(db: Db, limit: int, caller: Caller, area: Option<int>,
                         tipoRaw: string, descRaw: string, nombreRaw: string): (e: Option<Error>)
    ensures caller.role != Requester ==> e == Some(RoleDenied)
    ensures caller.role == Requester && Strip(nombreRaw) == [] ==> e == Some(MissingRequesterName)
    ensures caller.role == Requester && Strip(nombreRaw) != [] && (Strip(tipoRaw) == [] || Strip(descRaw) == []) ==>
      e == Some(MissingTypeOrDescription)
    ensures FieldsPresent(caller, tipoRaw, descRaw, nombreRaw) && TotalTickets(db.tickets, caller.id) >= limit ==>
      e == Some(QuotaExceeded(TotalTickets(db.tickets, caller.id), limit))
    ensures FieldsPresent(caller, tipoRaw, descRaw, nombreRaw) && TotalTickets(db.tickets, caller.id) < limit
            && PendingSurveys(db, caller.id, false) != [] ==>
      e == Some(SurveyPending(PendingSurveys(db, caller.id, false)))
    ensures e.None? <==>
      FieldsPresent(caller, tipoRaw, descRaw, nombreRaw) && TotalTickets(db.tickets, caller.id) < limit
      && PendingSurveys(db, caller.id, false) == [] && HasArea(area)
  {
    if caller.role != Requester then Some(RoleDenied)
    else if Strip(nombreRaw) == [] then Some(MissingRequesterName)
    else if Strip(tipoRaw) == [] || Strip(descRaw) == [] then Some(MissingTypeOrDescription)
    else
      var count := TotalTickets(db.tickets, caller.id);
      if count >= limit then Some(QuotaExceeded(count, limit))
      else
        var pending := PendingSurveys(db, caller.id, false);
        if pending != [] then Some(SurveyPending(pending))
        else if !HasArea(area) then Some(NoArea)
        else None
  }

  /**
   * The row `api_crear_ticket` inserts: PENDIENTE, owned by the caller, created at
   * `now`, with no closure time and no primary technician; the name and description
   * stripped, and the stripped type cut to 180 characters as subject.
   */
  function NewTicket(id: nat, caller: Caller, area: int, tipoRaw: string, descRaw: string, nombreRaw: string, now: nat): Ticket {
    Ticket(id, caller.id, area, Strip(nombreRaw), Subject(Strip(tipoRaw)), Strip(descRaw), Pendiente, now, None, None)
  }

  lemma NewTicketRow(id: nat, caller: Caller, area: int, tipoRaw: string, descRaw: string, nombreRaw: string, now: nat)
    ensures var t := NewTicket(id, caller, area, tipoRaw, descRaw, nombreRaw, now);
      && t.id == id && t.owner == caller.id && t.area == area && t.createdAt == now
      && t.state == Pendiente && t.closedAt.None? && t.primary.None?
      && t.requesterName == Strip(nombreRaw) && t.description == Strip(descRaw)
      && |t.subject| == Min(180, |Strip(tipoRaw)|) && t.subject == Strip(tipoRaw)[..|t.subject|]
  {
  }

  /**
   * The writes of an accepted `api_crear_ticket`: exactly one ticket is added,
   * PENDIENTE, owned by the caller, with the next id and the first 180 characters of
   * the type as subject; the caller's count grows by one and no one else's changes;
   * the images among the first three files become its attachments. `now` stands for
   * the insertion time.
   */
  function Admit(db: Db, caller: Caller, area: int, tipoRaw: string, descRaw: string, nombreRaw: string,
                 files: seq<Upload>, now: nat): (r: Db)
    ensures r.tickets == db.tickets + [NewTicket(|db.tickets| + 1, caller, area, tipoRaw, descRaw, nombreRaw, now)]
    ensures r.tickets[|db.tickets|].state == Pendiente && r.tickets[|db.tickets|].owner == caller.id
    ensures TotalTickets(r.tickets, caller.id) == TotalTickets(db.tickets, caller.id) + 1
    ensures forall u :: u != caller.id ==> TotalTickets(r.tickets, u) == TotalTickets(db.tickets, u)
    ensures r.attachments == db.attachments + RequesterImages(|db.tickets| + 1, FirstThree(files))
    ensures r.assignments == db.assignments && r.notes == db.notes && r.surveys == db.surveys
  {
    var id := |db.tickets| + 1;
    var t := NewTicket(id, caller, area, tipoRaw, descRaw, nombreRaw, now);
    TotalTicketsAppendAll(db.tickets, t);
    db.(tickets := db.tickets + [t], attachments := db.attachments + RequesterImages(id, FirstThree(files)))
  }

  /**
   * `api_crear_ticket`: a refusal leaves the tables untouched; otherwise the ticket
   * with the next id is written as `Admit` says.
   */
  function CreateTicket(db: Db, limit: int, caller: Caller, area: Option<int>,
                        tipoRaw: string, descRaw: string, nombreRaw: string,
                        files: seq<Upload>, now: nat): (r: (Result<nat>, Db))
    ensures r.0.Err? <==> CreateRefusal(db, limit, caller, area, tipoRaw, descRaw, nombreRaw).Some?
    ensures r.0.Err? ==> r.0.error == CreateRefusal(db, limit, caller, area, tipoRaw, descRaw, nombreRaw).value && r.1 == db
    ensures r.0.Ok? ==>
      && area.Some?
      && r.0.value == |db.tickets| + 1
      && r.1 == Admit(db, caller, area.value, tipoRaw, descRaw, nombreRaw, files, now)
  {
    var refusal := CreateRefusal(db, limit, caller, area, tipoRaw, descRaw, nombreRaw);
    if refusal.Some? then (Err(refusal.value), db)
    else (Ok(|db.tickets| + 1), Admit(db, caller, area.value, tipoRaw, descRaw, nombreRaw, files, now))
  }

  lemma TotalTicketsAppendAll(ts: seq<Ticket>, t: Ticket)
    ensures forall u :: TotalTickets(ts + [t], u) == TotalTickets(ts, u) + (if t.owner == u then 1 else 0)
  {
    forall u { TotalTicketsAppend(ts, t, u); }
  }

  /** Creation adds at most three attachments, all for the new ticket and all from images. */
  lemma RequesterImagesBounded(tid: nat, files: seq<Upload>)
    ensures |RequesterImages(tid, FirstThree(files))| <= 3
    ensures forall a :: a in RequesterImages(tid, FirstThree(files)) ==>
      a.ticketId == tid && exists f :: f in files && IsImage(f) && a.name == TicketImageName(f)
  {
    var first := FirstThree(files);
    var r := RequesterImages(tid, first);
    ImagesMembers(first);
    forall a | a in r
      ensures a.ticketId == tid && exists f :: f in files && IsImage(f) && a.name == TicketImageName(f)
    {
      var i :| 0 <= i < |r| && r[i] == a;
      var f := Images(first)[i];
      assert f in first;
    }
  }

  // ------------------------------------------------------------------- surveys

  /** `cerrado_en - desde`, when both ends are known (`creado_en` is always set). */
  function Elapsed(closedAt: Option<nat>, from: Option<nat>): (r: Option<int>)
    ensures r.Some? <==> closedAt.Some? && from.Some?
    ensures r.Some? ==> r.value + from.value == closedAt.value
  {
    if closedAt.Some? && from.Some? then Some(closedAt.value - from.value) else None
  }

  /** `t_servicio`: creation to closure, written `HH:MM:SS`; `None` while the ticket has no closure time or none elapsed. */
  function ServiceTime(t: Ticket): (r: Option<string>)
    ensures r.None? <==> t.closedAt.None? || t.closedAt.value == t.createdAt
    ensures r.Some? ==>
      ParseHms(r.value) == Some(if t.closedAt.value < t.createdAt then 0 else t.closedAt.value - t.createdAt)
  {
    Fmt(Elapsed(t.closedAt, Some(t.createdAt)))
  }

  /** `t_atencion`: first assignment to closure, written `HH:MM:SS`; `None` when either end is missing or none elapsed. */
  function AttentionTime(t: Ticket, firstAssigned: Option<nat>): (r: Option<string>)
    ensures r.None? <==> t.closedAt.None? || firstAssigned.None? || t.closedAt.value == firstAssigned.value
    ensures r.Some? ==>
      ParseHms(r.value) == Some(if t.closedAt.value < firstAssigned.value then 0 else t.closedAt.value - firstAssigned.value)
  {
    Fmt(Elapsed(t.closedAt, firstAssigned))
  }

  /** Every rating is absent or from 1 to 5. */
  predicate InRange(r: Ratings) {
    && (r.p2.None? || 1 <= r.p2.value <= 5)
    && (r.p3.None? || 1 <= r.p3.value <= 5)
    && (r.p4.None? || 1 <= r.p4.value <= 5)
    && (r.speed.None? || 1 <= r.speed.value <= 5)
    && (r.effectiveness.None? || 1 <= r.effectiveness.value <= 5)
    && (r.solutionSatisfaction.None? || 1 <= r.solutionSatisfaction.value <= 5)
    && (r.webSatisfaction.None? || 1 <= r.webSatisfaction.value <= 5)
  }

  /**
   * The ratings read from the form with `_s15_key`: each in range, and a field that
   * is missing yields no rating.
   */
  function RatingsOf(form: Form): (r: Ratings)
    ensures InRange(r)
    ensures P2 !in form ==> r.p2.None?
    ensures P3 !in form ==> r.p3.None?
    ensures P4 !in form ==> r.p4.None?
    ensures r.p2 == S15Key(form, P2) && r.p3 == S15Key(form, P3) && r.p4 == S15Key(form, P4)
    ensures r.speed == S15Key(form, Speed) && r.effectiveness == S15Key(form, Effectiveness)
    ensures r.solutionSatisfaction == S15Key(form, SolutionSatisfaction)
    ensures r.webSatisfaction == S15Key(form, WebSatisfaction)
  {
    Ratings(S15Key(form, P2), S15Key(form, P3), S15Key(form, P4),
            S15Key(form, Speed), S15Key(form, Effectiveness),
            S15Key(form, SolutionSatisfaction), S15Key(form, WebSatisfaction))
  }

  /** `atendido`: "si" exactly when the ticket was RESUELTO, "no" otherwise (CANCELADO). */
  function Attended(t: Ticket): (a: string)
    ensures a == "si" <==> t.state == Resuelto
    ensures a == "si" || a == "no"
  {
    if t.state == Resuelto then "si" else "no"
  }

  /**
   * The survey row `api_encuestas_create` stores for ticket `t`: the two durations,
   * the ratings, the identification answer, whether the ticket was attended, and the
   * two free-text answers.
   */
  function SurveyOf(id: nat, tid: nat, t: Ticket, firstAssigned: Option<nat>, form: Form, suggestions: string): (s: Survey)
    ensures s.id == id && s.ticketId == tid && s.suggestions == suggestions
    ensures s.attended == "si" <==> t.state == Resuelto
    ensures s.serviceTime == ServiceTime(t) && s.attentionTime == AttentionTime(t, firstAssigned)
    ensures InRange(s.ratings) && s.ratings == RatingsOf(form)
    ensures s.identification == None || s.identification == Some("si") || s.identification == Some("no")
    ensures s.identification == YesNo(form, Identification)
    ensures s.comments == Strip(FormGet(form, Comments))
  {
    Survey(id, tid, ServiceTime(t), AttentionTime(t, firstAssigned),
           RatingsOf(form), YesNo(form, Identification),
           Attended(t), suggestions, Strip(FormGet(form, Comments)))
  }

  /** The ticket id a survey form names, when `form.get(TicketIdField, type=int)` is truthy. */
  function SurveyTicketId(form: Form): (r: Option<int>)
    ensures TicketIdField !in form ==> r.None?
    ensures r.Some? <==> FormInt(form, TicketIdField).Some? && FormInt(form, TicketIdField).value != 0
    ensures r.Some? ==> r == FormInt(form, TicketIdField) && r.value != 0
  {
    var tid := FormInt(form, TicketIdField);
    if tid.None? || tid.value == 0 then None else tid
  }

  /**
   * The checks of `api_encuestas_create`, in their order: the role, a missing or zero
   * `ticket_id`, an unknown ticket, a ticket of someone else, a ticket that is not
   * RESUELTO or CANCELADO, a ticket that already has a survey, an empty suggestions answer.
   */
  function SurveyRefusal(db: Db, caller: Caller, form: Form): (e: Option<Error>)
    ensures caller.role != Requester ==> e == Some(RoleDenied)
    ensures caller.role == Requester && SurveyTicketId(form).None? ==> e == Some(MissingTicketId)
    ensures caller.role == Requester && SurveyTicketId(form).Some? ==>
      var tid := SurveyTicketId(form).value;
      && (Lookup(db, tid).None? ==> e == Some(TicketNotFound))
      && (Lookup(db, tid).Some? && Lookup(db, tid).value.owner != caller.id ==> e == Some(NotOwner))
      && (Lookup(db, tid).Some? && Lookup(db, tid).value.owner == caller.id ==>
            && (!Lookup(db, tid).value.state.IsClosed() ==> e == Some(NotClosed))
            && (Lookup(db, tid).value.state.IsClosed() && HasSurvey(db.surveys, tid) ==> e == Some(SurveyExists)))
    ensures e.None? <==>
      caller.role == Requester && SurveyTicketId(form).Some? && Lookup(db, SurveyTicketId(form).value).Some?
      && Lookup(db, SurveyTicketId(form).value).value.owner == caller.id
      && Lookup(db, SurveyTicketId(form).value).value.state.IsClosed()
      && !HasSurvey(db.surveys, SurveyTicketId(form).value)
      && Strip(FormGet(form, Suggestions)) != []
  {
    if caller.role != Requester then Some(RoleDenied)
    else
      match SurveyTicketId(form)
      case None => Some(MissingTicketId)
      case Some(tid) =>
        match Lookup(db, tid)
        case None => Some(TicketNotFound)
        case Some(t) =>
          if t.owner != caller.id then Some(NotOwner)
          else if !t.state.IsClosed() then Some(NotClosed)
          else if HasSurvey(db.surveys, tid) then Some(SurveyExists)
          else if Strip(FormGet(form, Suggestions)) == [] then Some(SuggestionsRequired)
          else None
  }

  /** The survey stored for ticket `tid`, with the next survey id. */
  function NewSurvey(db: Db, tid: int, form: Form): (s: Survey)
    requires 1 <= tid <= |db.tickets|
    ensures s.id == |db.surveys| + 1 && s.ticketId == tid
    ensures s.suggestions == Strip(FormGet(form, Suggestions))
    ensures s.serviceTime == ServiceTime(db.tickets[tid - 1])
    ensures s.attentionTime == AttentionTime(db.tickets[tid - 1], FirstAssignedAt(db.assignments, tid))
    ensures s.attended == "si" <==> db.tickets[tid - 1].state == Resuelto
    ensures s.ratings == RatingsOf(form) && s.identification == YesNo(form, Identification)
  {
    SurveyOf(|db.surveys| + 1, tid, db.tickets[tid - 1], FirstAssignedAt(db.assignments, tid),
             form, Strip(FormGet(form, Suggestions)))
  }

  /**
   * `api_encuestas_create`. A refusal leaves the tables untouched. Otherwise exactly
   * one survey is stored, for the named ticket, and the answer is its id.
   */
  function SubmitSurvey(db: Db, caller: Caller, form: Form): (r: (Result<nat>, Db))
    ensures r.0.Err? <==> SurveyRefusal(db, caller, form).Some?
    ensures r.0.Err? ==> r.0.error == SurveyRefusal(db, caller, form).value && r.1 == db
    ensures r.0.Ok? ==> r.0.value == |db.surveys| + 1
    ensures r.0.Ok? ==>
      && 1 <= SurveyTicketId(form).value <= |db.tickets|
      && r.1.surveys == db.surveys + [NewSurvey(db, SurveyTicketId(form).value, form)]
    ensures r.1.tickets == db.tickets && r.1.assignments == db.assignments
    ensures r.1.notes == db.notes && r.1.attachments == db.attachments
  {
    var refusal := SurveyRefusal(db, caller, form);
    if refusal.Some? then (Err(refusal.value), db)
    else
      var tid := SurveyTicketId(form).value;
      assert Lookup(db, tid).Some?;
      (Ok(|db.surveys| + 1), db.(surveys := db.surveys + [NewSurvey(db, tid, form)]))
  }

  /** After a stored survey the ticket has one, so a second submission is refused. */
  lemma SubmitSurveyRecords(db: Db, caller: Caller, form: Form)
    requires SubmitSurvey(db, caller, form).0.Ok?
    ensures HasSurvey(SubmitSurvey(db, caller, form).1.surveys, SurveyTicketId(form).value)
    ensures SurveyRefusal(SubmitSurvey(db, caller, form).1, caller, form) == Some(SurveyExists)
  {
    var db2 := SubmitSurvey(db, caller, form).1;
    var tid := SurveyTicketId(form).value;
    assert db2.surveys[|db.surveys|].ticketId == tid;
  }
}
