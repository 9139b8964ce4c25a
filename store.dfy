/**
 * The helpdesk's tables as one mutable store, with one method per handler of
 * `app/app.py`. Each method does in place, step by step, what the handler's SQL does,
 * and is proved to leave exactly the tables (and give exactly the answer) of the
 * corresponding step function; the invariant of the tables is kept by every method.
 */
module HelpDesk {
  import opened Wrappers
  import opened Inputs
  import opened Tables
  import Requester
  import Technician
  import Lifecycle

  /** One step of the loop over the ticket's files. */
  lemma TicketImagesStep(id: nat, files: seq<Upload>, i: nat)
    requires i < |files|
    ensures Requester.RequesterImages(id, files[i..])
         == (if Requester.IsImage(files[i]) then [Attachment(id, Requester.TicketImageName(files[i]))] else [])
            + Requester.RequesterImages(id, files[i + 1..])
  {
    assert files[i..][1..] == files[i + 1..];
  }

  /** The evidence rows still to come once `count` images are kept and `files[..i]` are seen. */
  function Pending(tid: nat, stamp: string, files: seq<Upload>, i: nat, count: nat): seq<Attachment>
    requires i <= |files| && count <= 3
  {
    Technician.EvidenceAttachments(tid, stamp, Technician.EvidenceFiles(files[i..], count), count)
  }

  /** Past the checks, the evidence upload stores exactly the rows the loop produces. */
  lemma EvidenceAccepted(db: Db, caller: Caller, tid: nat, files: seq<Upload>, stamp: string)
    requires caller.role == Technician && IsAssigned(db.assignments, tid, caller.id) && files != []
    ensures var rows := Pending(tid, stamp, files, 0, 0);
      Technician.UploadEvidence(db, caller, tid, files, stamp) ==
        if rows == [] then (Err(InvalidFiles), db) else (Ok(|rows|), db.(attachments := db.attachments + rows))
  {
    assert files[0..] == files;
  }

  /** One step of the loop over the evidence files, while fewer than three are stored. */
  lemma EvidenceStep(tid: nat, stamp: string, files: seq<Upload>, i: nat, count: nat, done: seq<Attachment>)
    requires i < |files| && count < 3
    ensures Requester.IsImage(files[i]) ==>
      done + Pending(tid, stamp, files, i, count)
      == (done + [Attachment(tid, Technician.EvidenceName(stamp, count, files[i]))]) + Pending(tid, stamp, files, i + 1, count + 1)
    ensures !Requester.IsImage(files[i]) ==>
      Pending(tid, stamp, files, i, count) == Pending(tid, stamp, files, i + 1, count)
  {
    var kept := Technician.EvidenceFiles(files[i..], count);
    assert files[i..][0] == files[i] && files[i..][1..] == files[i + 1..];
    if Requester.IsImage(files[i]) {
      var rest := Technician.EvidenceFiles(files[i + 1..], count + 1);
      assert kept == [files[i]] + rest;
      assert kept[1..] == rest;
      var head := Attachment(tid, Technician.EvidenceName(stamp, count, files[i]));
      assert Pending(tid, stamp, files, i, count) == [head] + Pending(tid, stamp, files, i + 1, count + 1);
    }
  }

  class Store {
    var tickets: seq<Ticket>
    var assignments: seq<Assignment>
    var notes: seq<Note>
    var attachments: seq<Attachment>
    var surveys: seq<Survey>
    /** `MAX_TOTAL_TICKETS`: how many tickets a requester may ever create (2 unless configured). */
    const maxTotalTickets: int

    /** The contents of the five tables. */
    function State(): Db
      reads this
    {
      Db(tickets, assignments, notes, attachments, surveys)
    }

    ghost predicate Valid()
      reads this
    {
      Tables.Valid(State())
    }

    /** Empty tables, with the configured ticket limit. */
    constructor (maxTotal: int)
      ensures State() == Empty && maxTotalTickets == maxTotal
      ensures Valid()
    {
      tickets, assignments, notes, attachments, surveys := [], [], [], [], [];
      maxTotalTickets := maxTotal;
    }

    /**
     * `api_crear_ticket`: the checks, the ticket row, then the images among the first
     * three files.
     */
    method CreateTicket(caller: Caller, area: Option<int>, tipoRaw: string, descRaw: string, nombreRaw: string,
                        files: seq<Upload>, now: nat) returns (r: Result<nat>)
      requires Valid()
      modifies this
      ensures (r, State()) == Requester.CreateTicket(old(State()), maxTotalTickets, caller, area, tipoRaw, descRaw, nombreRaw, files, now)
      ensures Valid()
    {
      ghost var before := State();
      var refusal := Requester.CreateRefusal(State(), maxTotalTickets, caller, area, tipoRaw, descRaw, nombreRaw);
      if refusal.Some? {
        return Err(refusal.value);
      }
      var id := |tickets| + 1;
      tickets := tickets + [Requester.NewTicket(id, caller, area.value, tipoRaw, descRaw, nombreRaw, now)];
      StoreTicketImages(id, Requester.FirstThree(files));
      r := Ok(id);
      assert State() == Requester.Admit(before, caller, area.value, tipoRaw, descRaw, nombreRaw, files, now);
      Lifecycle.CreatePreservesValid(before, maxTotalTickets, caller, area, tipoRaw, descRaw, nombreRaw, files, now);
    }

    /** The loop of `api_crear_ticket` that stores each image among `first` under ticket `id`. */
    method StoreTicketImages(id: nat, first: seq<Upload>)
      modifies this
      ensures attachments == old(attachments) + Requester.RequesterImages(id, first)
      ensures tickets == old(tickets) && assignments == old(assignments)
      ensures notes == old(notes) && surveys == old(surveys)
    {
      ghost var all := attachments + Requester.RequesterImages(id, first);
      var i := 0;
      while i < |first|
        invariant 0 <= i <= |first|
        invariant attachments + Requester.RequesterImages(id, first[i..]) == all
        modifies `attachments
      {
        var f := first[i];
        TicketImagesStep(id, first, i);
        if Requester.IsImage(f) {
          var row := Attachment(id, Requester.TicketImageName(f));
          assert (attachments + [row]) + Requester.RequesterImages(id, first[i + 1..]) == all;
          attachments := attachments + [row];
        }
        i := i + 1;
      }
      assert first[i..] == [];
    }

    /** `api_tecnico_tomar_ticket`: the `INSERT IGNORE`, then the conditional UPDATE. */
    method Claim(caller: Caller, tid: nat, now: nat) returns (r: Result<()>)
      requires Valid()
      modifies this
      ensures (r, State()) == Technician.Claim(old(State()), caller, tid, now)
      ensures Valid()
    {
      Lifecycle.ClaimPreservesValid(State(), caller, tid, now);
      if caller.role != Technician {
        return Err(RoleDenied);
      }
      assignments := InsertIgnore(assignments, tid, caller.id, now);
      if 1 <= tid <= |tickets| {
        tickets := tickets[tid - 1 := Technician.TakeTicket(tickets[tid - 1], caller.id)];
      }
      return Ok(());
    }

    /** `api_tecnico_asignar_otro`: the checks, then one `INSERT IGNORE` per listed id. */
    method AssignOthers(caller: Caller, tid: nat, raw: Json, now: nat) returns (r: Result<()>)
      requires Valid()
      modifies this
      ensures (r, State()) == Technician.AssignOthers(old(State()), caller, tid, raw, now)
      ensures Valid()
    {
      ghost var before := State();
      if caller.role != Technician {
        return Err(RoleDenied);
      }
      var ids := Technician.OtherIds(raw);
      if ids.None? {
        return Err(InvalidUserIds);
      }
      if !IsAssigned(assignments, tid, caller.id) {
        return Err(NotAssigned);
      }
      InsertEach(tid, ids.value, now);
      r := Ok(());
      Lifecycle.AssignOthersPreservesValid(before, caller, tid, raw, now);
    }

    /** The loop of `api_tecnico_asignar_otro`: one `INSERT IGNORE` of `(tid, u)` per `u` in `ids`. */
    method InsertEach(tid: nat, ids: seq<int>, now: nat)
      modifies this
      ensures assignments == Technician.InsertAll(old(assignments), tid, ids, now)
      ensures tickets == old(tickets) && notes == old(notes)
      ensures attachments == old(attachments) && surveys == old(surveys)
    {
      ghost var all := Technician.InsertAll(assignments, tid, ids, now);
      var i := 0;
      while i < |ids|
        invariant 0 <= i <= |ids|
        invariant Technician.InsertAll(assignments, tid, ids[i..], now) == all
        modifies `assignments
      {
        assert ids[i..][1..] == ids[i + 1..];
        assignments := InsertIgnore(assignments, tid, ids[i], now);
        i := i + 1;
      }
      assert ids[i..] == [];
    }

    /** `api_tecnico_cambiar_estado`: the checks, the UPDATE, then the optional note. */
    method ChangeState(caller: Caller, tid: nat, estadoRaw: string, notaRaw: string, now: nat) returns (r: Result<()>)
      requires Valid()
      modifies this
      ensures (r, State()) == Technician.ChangeState(old(State()), caller, tid, estadoRaw, notaRaw, now)
      ensures Valid()
    {
      Lifecycle.ChangeStatePreservesValid(State(), caller, tid, estadoRaw, notaRaw, now);
      var refusal := Technician.ChangeRefusal(State(), caller, tid, estadoRaw, notaRaw);
      if refusal.Some? {
        return Err(refusal.value);
      }
      var st := Technician.TargetState(estadoRaw).value;
      if 1 <= tid <= |tickets| {
        tickets := tickets[tid - 1 := Technician.MoveTicket(tickets[tid - 1], st, now)];
      }
      var nota := Text.Strip(notaRaw);
      if nota != [] {
        notes := notes + [Note(tid, caller.id, nota, now)];
      }
      return Ok(());
    }

    /** `api_tecnico_agregar_nota`. */
    method AddNote(caller: Caller, tid: nat, textoRaw: string, now: nat) returns (r: Result<()>)
      requires Valid()
      modifies this
      ensures (r, State()) == Technician.AddNote(old(State()), caller, tid, textoRaw, now)
      ensures Valid()
    {
      Lifecycle.NotePreservesValid(State(), caller, tid, textoRaw, now);
      if caller.role != Technician {
        return Err(RoleDenied);
      }
      var texto := Text.Strip(textoRaw);
      if texto == [] {
        return Err(TextRequired);
      }
      notes := notes + [Note(tid, caller.id, texto, now)];
      return Ok(());
    }

    /**
     * `api_tecnico_subir_evidencia`: the checks, then the evidence images; the answer
     * is how many were stored.
     */
    method UploadEvidence(caller: Caller, tid: nat, files: seq<Upload>, stamp: string) returns (r: Result<nat>)
      requires Valid()
      modifies this
      ensures (r, State()) == Technician.UploadEvidence(old(State()), caller, tid, files, stamp)
      ensures Valid()
    {
      ghost var before := State();
      if caller.role != Technician {
        return Err(RoleDenied);
      }
      if !IsAssigned(assignments, tid, caller.id) {
        return Err(NotAssigned);
      }
      if files == [] {
        return Err(NoImagesSent);
      }
      var count := StoreEvidence(tid, files, stamp);
      r := if count == 0 then Err(InvalidFiles) else Ok(count);
      EvidenceAccepted(before, caller, tid, files, stamp);
      assert before.attachments + [] == before.attachments;
      Lifecycle.EvidencePreservesValid(before, caller, tid, files, stamp);
    }

    /**
     * The loop of `api_tecnico_subir_evidencia`: it skips every file that is not an
     * image and stops once three images are stored.
     */
    method StoreEvidence(tid: nat, files: seq<Upload>, stamp: string) returns (count: nat)
      modifies this
      ensures attachments == old(attachments) + Pending(tid, stamp, files, 0, 0)
      ensures |attachments| == |old(attachments)| + count
      ensures tickets == old(tickets) && assignments == old(assignments)
      ensures notes == old(notes) && surveys == old(surveys)
    {
      ghost var all := attachments + Pending(tid, stamp, files, 0, 0);
      count := 0;
      var i := 0;
      while i < |files|
        invariant 0 <= i <= |files| && count <= 3
        invariant |attachments| == |old(attachments)| + count
        invariant attachments + Pending(tid, stamp, files, i, count) == all
        modifies `attachments
      {
        if count >= 3 {
          break;
        }
        EvidenceStep(tid, stamp, files, i, count, attachments);
        if Requester.IsImage(files[i]) {
          attachments := attachments + [Attachment(tid, Technician.EvidenceName(stamp, count, files[i]))];
          count := count + 1;
        }
        i := i + 1;
      }
      assert Pending(tid, stamp, files, i, count) == [];
      assert attachments + [] == all;
    }

    /** `api_encuestas_create`: the checks, then the survey row. */
    method SubmitSurvey(caller: Caller, form: Form) returns (r: Result<nat>)
      requires Valid()
      modifies this
      ensures (r, State()) == Requester.SubmitSurvey(old(State()), caller, form)
      ensures Valid()
    {
      Lifecycle.SubmitSurveyPreservesValid(State(), caller, form);
      var refusal := Requester.SurveyRefusal(State(), caller, form);
      if refusal.Some? {
        return Err(refusal.value);
      }
      var tid := Requester.SurveyTicketId(form).value;
      assert Lookup(State(), tid).Some?;
      var s := Requester.NewSurvey(State(), tid, form);
      surveys := surveys + [s];
      return Ok(|surveys|);
    }
  }
}
