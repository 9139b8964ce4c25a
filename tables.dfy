/**
 * The five tables the helpdesk handlers read and write (`tickets`,
 * `ticket_tecnicos`, `ticket_notas`, `ticket_attachments`, `encuestas`), as one
 * value `Db`, with the invariant the handlers keep and the lookups they share.
 */
module Tables {
  import opened Wrappers

  /** `tickets.estado`. PENDIENTE and EN_CURSO are open; RESUELTO and CANCELADO are closed. */
  datatype State = Pendiente | EnCurso | Resuelto | Cancelado {
    predicate IsOpen() { this == Pendiente || this == EnCurso }
    predicate IsClosed() { this == Resuelto || this == Cancelado }
  }

  /** The name of a state as the database stores it. */
  function StateName(st: State): string {
    match st
    case Pendiente => "PENDIENTE"
    case EnCurso => "EN_CURSO"
    case Resuelto => "RESUELTO"
    case Cancelado => "CANCELADO"
  }

  /** The state a stored name denotes, if any. */
  function ParseState(name: string): (r: Option<State>)
    ensures r.Some? ==> StateName(r.value) == name
  {
    if name == "PENDIENTE" then Some(Pendiente)
    else if name == "EN_CURSO" then Some(EnCurso)
    else if name == "RESUELTO" then Some(Resuelto)
    else if name == "CANCELADO" then Some(Cancelado)
    else None
  }

  lemma ParseStateName(st: State)
    ensures ParseState(StateName(st)) == Some(st)
  {
  }

  /** `session["role"]`: the role name of the authenticated user. */
  datatype Role = Requester | Technician | OtherRole

  /** The authenticated principal: `session["user_id"]` and its role. */
  datatype Caller = Caller(id: int, role: Role)

  /** A row of `tickets`. `closedAt` is `cerrado_en`, `primary` is `asignado_a`. */
  datatype Ticket = Ticket(
    id: nat,
    owner: int,
    area: int,
    requesterName: string,
    subject: string,
    description: string,
    state: State,
    createdAt: nat,
    closedAt: Option<nat>,
    primary: Option<int>)

  /** A row of `ticket_tecnicos`: a technician associated with a ticket, since `assignedAt`. */
  datatype Assignment = Assignment(ticketId: nat, userId: int, assignedAt: nat)

  /** A row of `ticket_notas`. */
  datatype Note = Note(ticketId: nat, author: int, text: string, createdAt: nat)

  /** An uploaded file as the handlers see it: its client-side name ("" when none) and its media type. */
  datatype Upload = Upload(filename: string, mimetype: string)

  /**
   * The stored name of an accepted image: `<ticket>_<sanitised name>` for images sent
   * with a new ticket, `<ticket>_<stamp>_<index><ext>` for a technician's evidence.
   */
  datatype StoredName = TicketImage(safeName: string) | EvidenceImage(stamp: string, index: nat, ext: string)

  /** A row of `ticket_attachments`. */
  datatype Attachment = Attachment(ticketId: nat, name: StoredName)

  /** The seven 1-to-5 ratings of a survey: `p2`, `p3`, `p4` and the four extended questions. */
  datatype Ratings = Ratings(
    p2: Option<int>,
    p3: Option<int>,
    p4: Option<int>,
    speed: Option<int>,
    effectiveness: Option<int>,
    solutionSatisfaction: Option<int>,
    webSatisfaction: Option<int>)

  /** A row of `encuestas`, with every answer as a typed field; the durations are `HH:MM:SS`. */
  datatype Survey = Survey(
    id: nat,
    ticketId: nat,
    serviceTime: Option<string>,
    attentionTime: Option<string>,
    ratings: Ratings,
    identification: Option<string>,
    attended: string,
    suggestions: string,
    comments: string)

  /** The refusals of the handlers, each returned before anything is written. */
  datatype Error =
    | RoleDenied
    | MissingRequesterName
    | MissingTypeOrDescription
    | QuotaExceeded(count: int, limit: int)
    | SurveyPending(pending: seq<Ticket>)
    | NoArea
    | InvalidUserIds
    | NotAssigned
    | InvalidTargetState
    | NoteRequired
    | TextRequired
    | NoImagesSent
    | InvalidFiles
    | MissingTicketId
    | TicketNotFound
    | NotOwner
    | NotClosed
    | SurveyExists
    | SuggestionsRequired

  /**
   * The HTTP status each refusal is answered with: 403 for a wrong role, a ticket
   * the technician is not assigned to, or one the requester does not own; 404 for an
   * unknown ticket; 409 for the quota, an unanswered survey or a repeated survey;
   * 400 for every malformed request.
   */
  function Status(e: Error): (code: int)
    ensures 400 <= code < 500
    ensures code == 403 <==> e.RoleDenied? || e.NotAssigned? || e.NotOwner?
    ensures code == 404 <==> e.TicketNotFound?
    ensures code == 409 <==> e.QuotaExceeded? || e.SurveyPending? || e.SurveyExists?
    ensures code == 400 || code == 403 || code == 404 || code == 409
  {
    match e
    case RoleDenied => 403
    case QuotaExceeded(_, _) => 409
    case SurveyPending(_) => 409
    case NotAssigned => 403
    case TicketNotFound => 404
    case NotOwner => 403
    case SurveyExists => 409
    case _ => 400
  }

  datatype Result<T> = Ok(value: T) | Err(error: Error)

  /** The contents of the five tables. */
  datatype Db = Db(
    tickets: seq<Ticket>,
    assignments: seq<Assignment>,
    notes: seq<Note>,
    attachments: seq<Attachment>,
    surveys: seq<Survey>)

  const Empty := Db([], [], [], [], [])

  // ------------------------------------------------------------------ lookups

  /** `SELECT ... FROM tickets WHERE id = tid`: ids are handed out 1, 2, 3, ... and rows are never deleted. */
  function Lookup(db: Db, tid: int): (r: Option<Ticket>)
    ensures r.Some? <==> 1 <= tid <= |db.tickets|
    ensures r.Some? ==> r.value == db.tickets[tid - 1]
  {
    if 1 <= tid <= |db.tickets| then Some(db.tickets[tid - 1]) else None
  }

  /** The (ticket, technician) pairs of `ticket_tecnicos`. */
  function Pairs(rows: seq<Assignment>): (r: set<(int, int)>)
    ensures forall i :: 0 <= i < |rows| ==> (rows[i].ticketId, rows[i].userId) in r
    ensures forall p :: p in r ==> exists i :: 0 <= i < |rows| && p == (rows[i].ticketId, rows[i].userId)
  {
    set i | 0 <= i < |rows| :: (rows[i].ticketId, rows[i].userId)
  }

  /** `SELECT 1 FROM ticket_tecnicos WHERE ticket_id=tid AND user_id=uid`: the authorisation of every technician action. */
  predicate IsAssigned(rows: seq<Assignment>, tid: int, uid: int) {
    (tid, uid) in Pairs(rows)
  }

  /** `INSERT IGNORE INTO ticket_tecnicos`: adds the pair unless it is already there, keeping its first time. */
  function InsertIgnore(rows: seq<Assignment>, tid: nat, uid: int, now: nat): (r: seq<Assignment>)
    ensures Pairs(r) == Pairs(rows) + {(tid, uid)}
    ensures |rows| <= |r| && r[..|rows|] == rows
    ensures IsAssigned(rows, tid, uid) ==> r == rows
    ensures !IsAssigned(rows, tid, uid) ==> r == rows + [Assignment(tid, uid, now)]
  {
    if IsAssigned(rows, tid, uid) then rows
    else
      var r := rows + [Assignment(tid, uid, now)];
      assert r[..|rows|] == rows;
      PairsAppend(rows, Assignment(tid, uid, now));
      r
  }

  lemma PairsAppend(rows: seq<Assignment>, a: Assignment)
    ensures Pairs(rows + [a]) == Pairs(rows) + {(a.ticketId, a.userId)}
  {
    var r := rows + [a];
    forall p | p in Pairs(r) ensures p in Pairs(rows) + {(a.ticketId, a.userId)} {
      var i :| 0 <= i < |r| && p == (r[i].ticketId, r[i].userId);
      if i < |rows| { assert r[i] == rows[i]; }
    }
    forall p | p in Pairs(rows) ensures p in Pairs(r) {
      var i :| 0 <= i < |rows| && p == (rows[i].ticketId, rows[i].userId);
      assert r[i] == rows[i];
    }
    assert r[|rows|] == a;
  }

  /** `SELECT MIN(creado_en) FROM ticket_tecnicos WHERE ticket_id=tid`. */
  function FirstAssignedAt(rows: seq<Assignment>, tid: int): (r: Option<nat>)
    ensures r.None? <==> forall i :: 0 <= i < |rows| ==> rows[i].ticketId != tid
    ensures r.Some? ==> exists i :: 0 <= i < |rows| && rows[i].ticketId == tid && rows[i].assignedAt == r.value
    ensures r.Some? ==> forall i :: 0 <= i < |rows| && rows[i].ticketId == tid ==> r.value <= rows[i].assignedAt
  {
    if rows == [] then None
    else
      var rest := FirstAssignedAt(rows[1..], tid);
      assert forall i :: 1 <= i < |rows| ==> rows[i] == rows[1..][i - 1];
      if rows[0].ticketId != tid then rest
      else if rest.None? || rows[0].assignedAt <= rest.value then Some(rows[0].assignedAt)
      else rest
  }

  /** `_total_tickets_count(uid)`: the number of tickets `uid` ever created, whatever their state. */
  function TotalTickets(ts: seq<Ticket>, uid: int): (r: nat)
    ensures r <= |ts|
  {
    if ts == [] then 0
    else TotalTickets(ts[..|ts| - 1], uid) + (if ts[|ts| - 1].owner == uid then 1 else 0)
  }

  /** Adding a ticket adds one to its owner's count and nothing to anyone else's. */
  lemma TotalTicketsAppend(ts: seq<Ticket>, t: Ticket, uid: int)
    ensures TotalTickets(ts + [t], uid) == TotalTickets(ts, uid) + (if t.owner == uid then 1 else 0)
  {
    assert (ts + [t])[..|ts|] == ts;
  }

  /** Changing a ticket without changing its owner leaves every count as it was. */
  lemma {:induction false} TotalTicketsUpdate(ts: seq<Ticket>, k: nat, t: Ticket, uid: int)
    requires k < |ts| && t.owner == ts[k].owner
    ensures TotalTickets(ts[k := t], uid) == TotalTickets(ts, uid)
  {
    if k < |ts| - 1 {
      assert ts[k := t][..|ts| - 1] == ts[..|ts| - 1][k := t];
      TotalTicketsUpdate(ts[..|ts| - 1], k, t, uid);
    } else {
      assert ts[k := t][..|ts| - 1] == ts[..|ts| - 1];
    }
  }

  /** `SELECT id FROM encuestas WHERE ticket_id = tid` finds a row. */
  predicate HasSurvey(surveys: seq<Survey>, tid: int) {
    exists i :: 0 <= i < |surveys| && surveys[i].ticketId == tid
  }

  // ---------------------------------------------------------------- invariant

  /**
   * What every handler keeps true of the tables: ticket and survey ids are their
   * positions plus one; a closed ticket has a closure time; a pending ticket has no
   * primary technician, and a primary technician is one of the ticket's technicians;
   * a (ticket, technician) pair appears once; a ticket has at most one survey, and
   * only an existing ticket has one.
   */
  ghost predicate Valid(db: Db) {
    && (forall i :: 0 <= i < |db.tickets| ==> db.tickets[i].id == i + 1)
    && (forall i :: 0 <= i < |db.tickets| && db.tickets[i].state.IsClosed() ==> db.tickets[i].closedAt.Some?)
    && (forall i :: 0 <= i < |db.tickets| && db.tickets[i].state == Pendiente ==> db.tickets[i].primary.None?)
    && (forall i :: 0 <= i < |db.tickets| && db.tickets[i].primary.Some? ==>
          IsAssigned(db.assignments, i + 1, db.tickets[i].primary.value))
    && UniquePairs(db.assignments)
    && (forall i :: 0 <= i < |db.surveys| ==> db.surveys[i].id == i + 1)
    && (forall i :: 0 <= i < |db.surveys| ==> 1 <= db.surveys[i].ticketId <= |db.tickets|)
    && (forall i, j :: 0 <= i < j < |db.surveys| ==> db.surveys[i].ticketId != db.surveys[j].ticketId)
  }

  /** Under the invariant, the lookup by position is the lookup by the `id` column. */
  lemma LookupById(db: Db, tid: int)
    requires Valid(db)
    ensures Lookup(db, tid).Some? <==> exists i :: 0 <= i < |db.tickets| && db.tickets[i].id == tid
    ensures Lookup(db, tid).Some? ==> Lookup(db, tid).value.id == tid
  {
    if 1 <= tid <= |db.tickets| {
      assert db.tickets[tid - 1].id == tid;
    }
  }

  /** The technician check finds a row of `ticket_tecnicos` with both columns matching. */
  lemma IsAssignedRow(rows: seq<Assignment>, tid: int, uid: int)
    ensures IsAssigned(rows, tid, uid) <==> exists i :: 0 <= i < |rows| && rows[i].ticketId == tid && rows[i].userId == uid
  {
    if IsAssigned(rows, tid, uid) {
      var i :| 0 <= i < |rows| && (tid, uid) == (rows[i].ticketId, rows[i].userId);
      assert rows[i].ticketId == tid && rows[i].userId == uid;
    }
  }

  ghost predicate UniquePairs(rows: seq<Assignment>) {
    forall i, j :: 0 <= i < j < |rows| ==>
      (rows[i].ticketId, rows[i].userId) != (rows[j].ticketId, rows[j].userId)
  }

  lemma InsertIgnoreUnique(rows: seq<Assignment>, tid: nat, uid: int, now: nat)
    requires UniquePairs(rows)
    ensures UniquePairs(InsertIgnore(rows, tid, uid, now))
  {
  }
}
