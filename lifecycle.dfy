/**
 * Properties of the ticket lifecycle across handlers: every handler keeps the
 * tables' invariant, taking a ticket is idempotent and the first technician stays
 * the primary one, a ticket gets at most one survey, and answering the survey of a
 * resolved ticket lifts the block on new tickets.
 */
module Lifecycle {
  import opened Wrappers
  import opened Text
  import opened Inputs
  import opened Tables
  import opened Listings
  import opened Requester
  import opened Technician

  // ---------------------------------------------------------- the invariant

  /** More technician rows, kept free of duplicates, keep the invariant. */
  lemma ValidWithMoreAssignments(db: Db, rows: seq<Assignment>)
    requires Valid(db)
    requires Pairs(db.assignments) <= Pairs(rows) && UniquePairs(rows)
    ensures Valid(db.(assignments := rows))
  {
    var db2 := db.(assignments := rows);
    forall i | 0 <= i < |db2.tickets| && db2.tickets[i].primary.Some?
      ensures IsAssigned(db2.assignments, i + 1, db2.tickets[i].primary.value)
    {
      assert IsAssigned(db.assignments, i + 1, db.tickets[i].primary.value);
    }
  }

  lemma AdmitPreservesValid(db: Db, caller: Caller, area: int, tipoRaw: string, descRaw: string, nombreRaw: string,
                            files: seq<Upload>, now: nat)
    requires Valid(db)
    ensures Valid(Admit(db, caller, area, tipoRaw, descRaw, nombreRaw, files, now))
  {
    var db2 := Admit(db, caller, area, tipoRaw, descRaw, nombreRaw, files, now);
    ValidWithNewTicket(db, db2, NewTicket(|db.tickets| + 1, caller, area, tipoRaw, descRaw, nombreRaw, now));
  }

  /** Appending a PENDIENTE ticket with the next id and no primary keeps the invariant. */
  lemma ValidWithNewTicket(db: Db, db2: Db, t: Ticket)
    requires Valid(db)
    requires t.id == |db.tickets| + 1 && t.state == Pendiente && t.primary.None?
    requires db2.tickets == db.tickets + [t] && db2.assignments == db.assignments && db2.surveys == db.surveys
    ensures Valid(db2)
  {
    forall i | 0 <= i < |db.tickets| ensures db2.tickets[i] == db.tickets[i] { }
  }

  lemma CreatePreservesValid(db: Db, limit: int, caller: Caller, area: Option<int>,
                             tipoRaw: string, descRaw: string, nombreRaw: string, files: seq<Upload>, now: nat)
    requires Valid(db)
    ensures Valid(CreateTicket(db, limit, caller, area, tipoRaw, descRaw, nombreRaw, files, now).1)
  {
    if CreateTicket(db, limit, caller, area, tipoRaw, descRaw, nombreRaw, files, now).0.Ok? {
      AdmitPreservesValid(db, caller, area.value, tipoRaw, descRaw, nombreRaw, files, now);
    }
  }

  /** A survey for an existing ticket that has none, with the next id, keeps the invariant. */
  lemma AddSurveyPreservesValid(db: Db, s: Survey)
    requires Valid(db)
    requires 1 <= s.ticketId <= |db.tickets| && !HasSurvey(db.surveys, s.ticketId) && s.id == |db.surveys| + 1
    ensures Valid(db.(surveys := db.surveys + [s]))
  {
    var db2 := db.(surveys := db.surveys + [s]);
    forall i | 0 <= i < |db.surveys| ensures db2.surveys[i] == db.surveys[i] && db.surveys[i].ticketId != s.ticketId { }
  }

  lemma SubmitSurveyPreservesValid(db: Db, caller: Caller, form: Form)
    requires Valid(db)
    ensures Valid(SubmitSurvey(db, caller, form).1)
  {
    if SubmitSurvey(db, caller, form).0.Ok? {
      var tid := SurveyTicketId(form).value;
      AddSurveyPreservesValid(db, NewSurvey(db, tid, form));
    }
  }

  lemma ClaimPreservesValid(db: Db, caller: Caller, tid: nat, now: nat)
    requires Valid(db)
    ensures Valid(Claim(db, caller, tid, now).1)
  {
    var r := Claim(db, caller, tid, now);
    if r.0.Ok? {
      var rows := InsertIgnore(db.assignments, tid, caller.id, now);
      InsertIgnoreUnique(db.assignments, tid, caller.id, now);
      ValidWithMoreAssignments(db, rows);
      var mid := db.(assignments := rows);
      if 1 <= tid <= |db.tickets| {
        ValidWithTaken(mid, tid - 1, caller.id);
        assert r.1 == mid.(tickets := mid.tickets[tid - 1 := TakeTicket(mid.tickets[tid - 1], caller.id)]);
      }
    }
  }

  /** Taking a ticket, by a technician already assigned to it, keeps the invariant. */
  lemma ValidWithTaken(db: Db, k: nat, uid: int)
    requires Valid(db) && k < |db.tickets| && IsAssigned(db.assignments, k + 1, uid)
    ensures Valid(db.(tickets := db.tickets[k := TakeTicket(db.tickets[k], uid)]))
  {
    var t := db.tickets[k];
    var db2 := db.(tickets := db.tickets[k := TakeTicket(t, uid)]);
    assert db2.tickets[k].primary.Some? ==> IsAssigned(db.assignments, k + 1, db2.tickets[k].primary.value);
    forall i | 0 <= i < |db2.tickets| && i != k ensures db2.tickets[i] == db.tickets[i] { }
  }

  lemma AssignOthersPreservesValid(db: Db, caller: Caller, tid: nat, raw: Json, now: nat)
    requires Valid(db)
    ensures Valid(AssignOthers(db, caller, tid, raw, now).1)
  {
    var r := AssignOthers(db, caller, tid, raw, now);
    if r.0.Ok? {
      InsertAllUnique(db.assignments, tid, OtherIds(raw).value, now);
      ValidWithMoreAssignments(db, r.1.assignments);
    }
  }

  /**
   * Replacing one ticket by another with the same id and primary technician keeps the
   * invariant, when the new one is closed only with a closure time and is not PENDIENTE.
   */
  lemma ValidWithTicket(db: Db, db2: Db, k: nat, t: Ticket)
    requires Valid(db) && k < |db.tickets|
    requires db2.tickets == db.tickets[k := t]
    requires db2.assignments == db.assignments && db2.surveys == db.surveys
    requires t.id == db.tickets[k].id && t.primary == db.tickets[k].primary
    requires t.state.IsClosed() ==> t.closedAt.Some?
    requires t.state != Pendiente
    ensures Valid(db2)
  {
    forall i | 0 <= i < |db2.tickets| && i != k ensures db2.tickets[i] == db.tickets[i] { }
  }

  lemma ChangeStatePreservesValid(db: Db, caller: Caller, tid: nat, estadoRaw: string, notaRaw: string, now: nat)
    requires Valid(db)
    ensures Valid(ChangeState(db, caller, tid, estadoRaw, notaRaw, now).1)
  {
    if ChangeState(db, caller, tid, estadoRaw, notaRaw, now).0.Ok? {
      MovePreservesValid(db, caller.id, tid, TargetState(estadoRaw).value, Strip(notaRaw), now);
    }
  }

  /** Moving a ticket to any state but PENDIENTE, with or without a note, keeps the invariant. */
  lemma MovePreservesValid(db: Db, uid: int, tid: nat, st: State, nota: string, now: nat)
    requires Valid(db) && st != Pendiente
    ensures Valid(Move(db, uid, tid, st, nota, now))
  {
    var r := Move(db, uid, tid, st, nota, now);
    var mid := db.(tickets := r.tickets);
    if 1 <= tid <= |db.tickets| {
      ValidWithTicket(db, mid, tid - 1, MoveTicket(db.tickets[tid - 1], st, now));
    }
    ValidIgnoresNotes(mid, r.notes);
    assert r == mid.(notes := r.notes);
  }

  /** The invariant does not speak of notes. */
  lemma ValidIgnoresNotes(db: Db, notes: seq<Note>)
    requires Valid(db)
    ensures Valid(db.(notes := notes))
  {
  }

  /** A note touches no table the invariant speaks of. */
  lemma NotePreservesValid(db: Db, caller: Caller, tid: nat, texto: string, now: nat)
    requires Valid(db)
    ensures Valid(AddNote(db, caller, tid, texto, now).1)
  {
    ValidIgnoresNotes(db, AddNote(db, caller, tid, texto, now).1.notes);
    assert AddNote(db, caller, tid, texto, now).1 == db.(notes := AddNote(db, caller, tid, texto, now).1.notes);
  }

  /** Evidence touches no table the invariant speaks of. */
  lemma EvidencePreservesValid(db: Db, caller: Caller, tid: nat, files: seq<Upload>, stamp: string)
    requires Valid(db)
    ensures Valid(UploadEvidence(db, caller, tid, files, stamp).1)
  {
    assert UploadEvidence(db, caller, tid, files, stamp).1.(attachments := db.attachments) == db;
  }

  // ---------------------------------------------------------------- taking

  /** Taking a ticket twice is taking it once: the second request changes nothing. */
  lemma ClaimIdempotent(db: Db, caller: Caller, tid: nat, now: nat, later: nat)
    ensures Claim(Claim(db, caller, tid, now).1, caller, tid, later).1 == Claim(db, caller, tid, now).1
  {
    var db1 := Claim(db, caller, tid, now).1;
    if caller.role == Technician {
      assert IsAssigned(db1.assignments, tid, caller.id);
      if 1 <= tid <= |db.tickets| {
        var t1 := TakeTicket(db.tickets[tid - 1], caller.id);
        assert db1.tickets[tid - 1] == t1;
        assert TakeTicket(t1, caller.id) == t1;
        assert db1.tickets[tid - 1 := t1] == db1.tickets;
      }
    }
  }

  /**
   * When two technicians take the same ticket one after the other, both become its
   * technicians, it is no longer PENDIENTE, and the primary one is the first (unless
   * it already had one).
   */
  lemma FirstClaimerWins(db: Db, a: Caller, b: Caller, tid: nat, now: nat, later: nat)
    requires a.role == Technician && b.role == Technician
    requires 1 <= tid <= |db.tickets|
    ensures var db2 := Claim(Claim(db, a, tid, now).1, b, tid, later).1;
      && IsAssigned(db2.assignments, tid, a.id)
      && IsAssigned(db2.assignments, tid, b.id)
      && db2.tickets[tid - 1].state != Pendiente
      && db2.tickets[tid - 1].primary == (if db.tickets[tid - 1].primary.None? then Some(a.id) else db.tickets[tid - 1].primary)
  {
    var db1 := Claim(db, a, tid, now).1;
    var db2 := Claim(db1, b, tid, later).1;
    assert db1.tickets[tid - 1] == TakeTicket(db.tickets[tid - 1], a.id);
    assert db2.tickets[tid - 1] == TakeTicket(db1.tickets[tid - 1], b.id);
    assert IsAssigned(db1.assignments, tid, a.id);
    assert Pairs(db1.assignments) <= Pairs(db2.assignments);
  }

  // ---------------------------------------------------------------- states

  /** Resolving needs a note: without one the request is refused and nothing changes. */
  lemma ResolveNeedsNote(db: Db, caller: Caller, tid: nat, estadoRaw: string, notaRaw: string, now: nat)
    requires caller.role == Technician && TargetState(estadoRaw) == Some(Resuelto)
    ensures Strip(notaRaw) == [] ==> ChangeState(db, caller, tid, estadoRaw, notaRaw, now) == (Err(NoteRequired), db)
    ensures Strip(notaRaw) != [] && IsAssigned(db.assignments, tid, caller.id) && 1 <= tid <= |db.tickets| ==>
      var db2 := ChangeState(db, caller, tid, estadoRaw, notaRaw, now).1;
      && db2.tickets[tid - 1].state == Resuelto
      && db2.tickets[tid - 1].closedAt == Some(now)
      && db2.notes == db.notes + [Note(tid, caller.id, Strip(notaRaw), now)]
  {
  }

  /** Examples: the target state is read case-insensitively, and PENDIENTE is no target. */
  lemma TargetStateNames()
    ensures TargetState("resuelto") == Some(Resuelto)
    ensures TargetState("En_Curso") == Some(EnCurso)
    ensures TargetState("CANCELADO") == Some(Cancelado)
    ensures TargetState("PENDIENTE") == None
  {
    assert Upper("resuelto") == "RESUELTO";
    assert Upper("En_Curso") == "EN_CURSO";
    assert Upper("CANCELADO") == "CANCELADO";
    assert Upper("PENDIENTE") == "PENDIENTE";
  }

  /**
   * A resolved ticket moved back to EN_CURSO is open again but keeps its closure time:
   * a closure time does not mean the ticket is closed.
   */
  lemma ReopenKeepsClosure(db: Db, caller: Caller, tid: nat, res: string, nota: string, cur: string, nota2: string, now: nat, later: nat)
    requires TargetState(res) == Some(Resuelto) && TargetState(cur) == Some(EnCurso)
    requires ChangeState(db, caller, tid, res, nota, now).0.Ok?
    requires 1 <= tid <= |db.tickets|
    ensures var db1 := ChangeState(db, caller, tid, res, nota, now).1;
      var db2 := ChangeState(db1, caller, tid, cur, nota2, later);
      && db2.0.Ok?
      && db2.1.tickets[tid - 1].state.IsOpen()
      && db2.1.tickets[tid - 1].closedAt == Some(now)
  {
    var db1 := ChangeState(db, caller, tid, res, nota, now).1;
    assert db1.assignments == db.assignments;
    assert db1.tickets[tid - 1].closedAt == Some(now);
  }

  // ---------------------------------------------------------------- surveys

  lemma HasSurveyAppend(surveys: seq<Survey>, s: Survey, x: int)
    ensures HasSurvey(surveys + [s], x) <==> HasSurvey(surveys, x) || s.ticketId == x
  {
    var s2 := surveys + [s];
    if HasSurvey(surveys, x) {
      var i :| 0 <= i < |surveys| && surveys[i].ticketId == x;
      assert s2[i] == surveys[i];
    }
    if s.ticketId == x {
      assert s2[|surveys|] == s;
    }
  }

  /** Storing a survey for ticket `tid` adds exactly `tid` to the tickets that have one. */
  lemma HasSurveyAfter(db: Db, caller: Caller, form: Form, x: int)
    requires SubmitSurvey(db, caller, form).0.Ok?
    ensures HasSurvey(SubmitSurvey(db, caller, form).1.surveys, x) <==> HasSurvey(db.surveys, x) || x == SurveyTicketId(form).value
  {
    var tid := SurveyTicketId(form).value;
    HasSurveyAppend(db.surveys, NewSurvey(db, tid, form), x);
  }

  /**
   * Answering a survey takes its ticket, and only it, off the caller's list of
   * tickets owing one.
   */
  lemma SurveyClearsPending(db: Db, caller: Caller, form: Form, includeCancelled: bool)
    requires Valid(db)
    requires SubmitSurvey(db, caller, form).0.Ok?
    ensures forall t :: t in PendingSurveys(SubmitSurvey(db, caller, form).1, caller.id, includeCancelled) <==>
      t in PendingSurveys(db, caller.id, includeCancelled) && t.id != SurveyTicketId(form).value
  {
    var db2 := SubmitSurvey(db, caller, form).1;
    forall t ensures IsPending(db2, caller.id, includeCancelled, t) <==>
      IsPending(db, caller.id, includeCancelled, t) && t.id != SurveyTicketId(form).value
    {
      HasSurveyAfter(db, caller, form, t.id);
    }
  }

  /**
   * When the surveyed ticket was the only one owing a survey, the block is lifted:
   * creating a ticket is no longer refused for a pending survey.
   */
  lemma LastSurveyUnblocks(db: Db, caller: Caller, form: Form)
    requires Valid(db)
    requires SubmitSurvey(db, caller, form).0.Ok?
    requires forall t :: t in PendingSurveys(db, caller.id, false) ==> t.id == SurveyTicketId(form).value
    ensures PendingSurveys(SubmitSurvey(db, caller, form).1, caller.id, false) == []
  {
    var p := PendingSurveys(SubmitSurvey(db, caller, form).1, caller.id, false);
    SurveyClearsPending(db, caller, form, false);
    HeadIn(p);
  }

  /** A ticket gets at most one survey: a second submission for it is refused as a conflict. */
  lemma SecondSurveyConflicts(db: Db, caller: Caller, form: Form, form2: Form)
    requires SubmitSurvey(db, caller, form).0.Ok?
    requires SurveyTicketId(form2) == SurveyTicketId(form)
    ensures SubmitSurvey(SubmitSurvey(db, caller, form).1, caller, form2) == (Err(SurveyExists), SubmitSurvey(db, caller, form).1)
  {
    var db2 := SubmitSurvey(db, caller, form).1;
    HasSurveyAfter(db, caller, form, SurveyTicketId(form).value);
  }

  // ---------------------------------------------------------------- quota

  /** With no ticket resolved, nobody owes a survey. */
  lemma NoResolvedNoPending(db: Db, uid: int)
    requires forall i :: 0 <= i < |db.tickets| ==> db.tickets[i].state == Pendiente
    ensures PendingSurveys(db, uid, false) == []
  {
    HeadIn(PendingSurveys(db, uid, false));
  }

  /** While no ticket has left PENDIENTE, a complete request under the limit passes every check. */
  lemma AcceptedWhileAllPending(db: Db, limit: int, caller: Caller, area: Option<int>, tipo: string, desc: string, nombre: string)
    requires FieldsPresent(caller, tipo, desc, nombre) && HasArea(area)
    requires TotalTickets(db.tickets, caller.id) < limit
    requires forall i :: 0 <= i < |db.tickets| ==> db.tickets[i].state == Pendiente
    ensures CreateRefusal(db, limit, caller, area, tipo, desc, nombre) == None
  {
    NoResolvedNoPending(db, caller.id);
  }

  /** An accepted ticket is PENDIENTE, so the tables stay all PENDIENTE. */
  lemma AdmitKeepsAllPending(db: Db, caller: Caller, area: int, tipo: string, desc: string, nombre: string, files: seq<Upload>, now: nat)
    requires forall i :: 0 <= i < |db.tickets| ==> db.tickets[i].state == Pendiente
    ensures var r := Admit(db, caller, area, tipo, desc, nombre, files, now);
      forall i :: 0 <= i < |r.tickets| ==> r.tickets[i].state == Pendiente
  {
    var r := Admit(db, caller, area, tipo, desc, nombre, files, now);
    forall i | 0 <= i < |r.tickets| ensures r.tickets[i].state == Pendiente {
      if i < |db.tickets| {
        assert r.tickets[i] == db.tickets[i];
      }
    }
  }

  /**
   * While no ticket has left PENDIENTE, a complete request under the limit is accepted,
   * adds one to the caller's count and leaves every ticket PENDIENTE.
   */
  lemma CreateWhileAllPending(db: Db, limit: int, caller: Caller, area: Option<int>,
                              tipo: string, desc: string, nombre: string, files: seq<Upload>, now: nat)
    requires FieldsPresent(caller, tipo, desc, nombre) && HasArea(area)
    requires TotalTickets(db.tickets, caller.id) < limit
    requires forall i :: 0 <= i < |db.tickets| ==> db.tickets[i].state == Pendiente
    ensures var r := CreateTicket(db, limit, caller, area, tipo, desc, nombre, files, now);
      && r.0.Ok? && r.0.value == |db.tickets| + 1 && |r.1.tickets| == |db.tickets| + 1
      && TotalTickets(r.1.tickets, caller.id) == TotalTickets(db.tickets, caller.id) + 1
      && forall i :: 0 <= i < |r.1.tickets| ==> r.1.tickets[i].state == Pendiente
  {
    AcceptedWhileAllPending(db, limit, caller, area, tipo, desc, nombre);
    AdmitKeepsAllPending(db, caller, area.value, tipo, desc, nombre, files, now);
    var admitted := Admit(db, caller, area.value, tipo, desc, nombre, files, now);
    var r := CreateTicket(db, limit, caller, area, tipo, desc, nombre, files, now);
    assert r.0.Ok? && r.1 == admitted;
  }

  /** From empty tables, two complete requests under a limit of two are both accepted. */
  lemma TwoAccepted(caller: Caller, area: Option<int>, tipo: string, desc: string, nombre: string, files: seq<Upload>, now: nat)
    requires FieldsPresent(caller, tipo, desc, nombre) && HasArea(area)
    ensures var a := CreateTicket(Empty, 2, caller, area, tipo, desc, nombre, files, now);
      var b := CreateTicket(a.1, 2, caller, area, tipo, desc, nombre, files, now + 1);
      && a.0.Ok? && a.0.value == 1 && b.0.Ok? && b.0.value == 2
      && TotalTickets(b.1.tickets, caller.id) == 2
  {
    FirstAccepted(caller, area, tipo, desc, nombre, files, now);
    var a := CreateTicket(Empty, 2, caller, area, tipo, desc, nombre, files, now);
    SecondAccepted(a.1, caller, area, tipo, desc, nombre, files, now + 1);
  }

  /** The first request from empty tables is ticket 1, the caller's only one, PENDIENTE. */
  lemma FirstAccepted(caller: Caller, area: Option<int>, tipo: string, desc: string, nombre: string, files: seq<Upload>, now: nat)
    requires FieldsPresent(caller, tipo, desc, nombre) && HasArea(area)
    ensures var a := CreateTicket(Empty, 2, caller, area, tipo, desc, nombre, files, now);
      && a.0 == Ok(1) && |a.1.tickets| == 1 && TotalTickets(a.1.tickets, caller.id) == 1
      && a.1.tickets[0].state == Pendiente
  {
    var db := Db([], [], [], [], []);
    assert db == Empty && TotalTickets(db.tickets, caller.id) == 0;
    CreateWhileAllPending(db, 2, caller, area, tipo, desc, nombre, files, now);
  }

  /** With one PENDIENTE ticket of the caller's, a second request under a limit of two is ticket 2. */
  lemma SecondAccepted(db: Db, caller: Caller, area: Option<int>, tipo: string, desc: string, nombre: string, files: seq<Upload>, now: nat)
    requires FieldsPresent(caller, tipo, desc, nombre) && HasArea(area)
    requires |db.tickets| == 1 && TotalTickets(db.tickets, caller.id) == 1
    requires db.tickets[0].state == Pendiente
    ensures var b := CreateTicket(db, 2, caller, area, tipo, desc, nombre, files, now);
      b.0 == Ok(2) && TotalTickets(b.1.tickets, caller.id) == 2
  {
    CreateWhileAllPending(db, 2, caller, area, tipo, desc, nombre, files, now);
  }

  /**
   * With the default limit of two tickets, a requester starting from empty tables
   * creates two tickets and is refused the third, with the count and the limit.
   */
  lemma QuotaOfTwo(caller: Caller, area: Option<int>, tipo: string, desc: string, nombre: string, files: seq<Upload>, now: nat)
    requires FieldsPresent(caller, tipo, desc, nombre) && HasArea(area)
    ensures var a := CreateTicket(Empty, 2, caller, area, tipo, desc, nombre, files, now);
      var b := CreateTicket(a.1, 2, caller, area, tipo, desc, nombre, files, now + 1);
      var c := CreateTicket(b.1, 2, caller, area, tipo, desc, nombre, files, now + 2);
      && a.0.Ok? && a.0.value == 1 && b.0.Ok? && b.0.value == 2
      && c.0.Err? && c.0.error == QuotaExceeded(2, 2) && c.1 == b.1
  {
    TwoAccepted(caller, area, tipo, desc, nombre, files, now);
    var a := CreateTicket(Empty, 2, caller, area, tipo, desc, nombre, files, now);
    var b := CreateTicket(a.1, 2, caller, area, tipo, desc, nombre, files, now + 1);
    assert CreateRefusal(b.1, 2, caller, area, tipo, desc, nombre) == Some(QuotaExceeded(2, 2));
  }

  // ---------------------------------------------------------------- ratings

  /** A rating of 5 is kept and a rating of 9 is dropped, as is a missing one. */
  lemma RatingsOfExample()
    ensures var r := RatingsOf(map[P2 := "5", P3 := "9"]);
      r.p2 == Some(5) && r.p3 == None && r.p4 == None
  {
    var form := map[P2 := "5", P3 := "9"];
    assert DigitsOf(5) == "5" && DigitsOf(9) == "9";
    S15KeyOfDigits(form, P2, 5);
    S15KeyOfDigits(form, P3, 9);
  }
}
