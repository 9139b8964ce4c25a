/**
 * The technician handlers of `app/app.py`: taking a ticket, adding colleagues,
 * moving it to another state, writing a note and uploading evidence. Each is a step
 * from the tables before the request to the answer and the tables after it; the
 * route's `<int:tid>` is the ticket id and `caller` the session.
 */
module Technician {
  import opened Wrappers
  import opened Text
  import opened Inputs
  import opened Tables
  import opened Listings
  import opened Requester

  // ------------------------------------------------------------------ updates

  /** `UPDATE tickets SET … WHERE id = tid`: replaces the ticket with id `tid`, if there is one. */
  function SetTicket(ts: seq<Ticket>, tid: int, t: Ticket): (r: seq<Ticket>)
    ensures |r| == |ts|
    ensures forall i :: 0 <= i < |ts| && i != tid - 1 ==> r[i] == ts[i]
    ensures 1 <= tid <= |ts| ==> r[tid - 1] == t
  {
    if 1 <= tid <= |ts| then ts[tid - 1 := t] else ts
  }

  /**
   * The UPDATE of `api_tecnico_tomar_ticket`: a PENDIENTE ticket moves to EN_CURSO,
   * and the first technician to take it becomes its primary one; nothing else changes.
   */
  function TakeTicket(t: Ticket, uid: int): (r: Ticket)
    ensures r.state == (if t.state == Pendiente then EnCurso else t.state)
    ensures r.primary == (if t.primary.None? then Some(uid) else t.primary)
    ensures r.(state := t.state, primary := t.primary) == t
  {
    t.(state := if t.state == Pendiente then EnCurso else t.state,
       primary := if t.primary.None? then Some(uid) else t.primary)
  }

  /**
   * `api_tecnico_tomar_ticket`: any technician may take any ticket. The pair joins
   * `ticket_tecnicos` (once), and the ticket, if it exists, is updated as `TakeTicket` says.
   */
  function Claim(db: Db, caller: Caller, tid: nat, now: nat): (r: (Result<()>, Db))
    ensures r.0.Err? <==> caller.role != Technician
    ensures r.0.Err? ==> r.0.error == RoleDenied && r.1 == db
    ensures r.0.Ok? ==> r.1.assignments == InsertIgnore(db.assignments, tid, caller.id, now)
    ensures r.0.Ok? ==> IsAssigned(r.1.assignments, tid, caller.id)
    ensures r.0.Ok? && Lookup(db, tid).Some? ==> r.1.tickets == db.tickets[tid - 1 := TakeTicket(db.tickets[tid - 1], caller.id)]
    ensures Lookup(db, tid).None? ==> r.1.tickets == db.tickets
    ensures r.1.notes == db.notes && r.1.attachments == db.attachments && r.1.surveys == db.surveys
  {
    if caller.role != Technician then (Err(RoleDenied), db)
    else
      var rows := InsertIgnore(db.assignments, tid, caller.id, now);
      var ts := if 1 <= tid <= |db.tickets| then SetTicket(db.tickets, tid, TakeTicket(db.tickets[tid - 1], caller.id)) else db.tickets;
      (Ok(()), db.(assignments := rows, tickets := ts))
  }

  /** The pairs of ticket `tid` with each of `ids`. */
  function PairsFor(tid: nat, ids: seq<int>): (r: set<(int, int)>)
    ensures forall u :: (tid, u) in r <==> u in ids
    ensures forall p :: p in r ==> p.0 == tid
  {
    set u | u in ids :: (tid, u)
  }

  lemma PairsForCons(tid: nat, ids: seq<int>)
    requires ids != []
    ensures PairsFor(tid, ids) == {(tid, ids[0])} + PairsFor(tid, ids[1..])
  {
    assert forall u :: u in ids <==> u == ids[0] || u in ids[1..];
  }

  /** The `INSERT IGNORE` loop of `api_tecnico_asignar_otro`, one id after the other. */
  function InsertAll(rows: seq<Assignment>, tid: nat, ids: seq<int>, now: nat): (r: seq<Assignment>)
    ensures Pairs(r) == Pairs(rows) + PairsFor(tid, ids)
    ensures |rows| <= |r| <= |rows| + |ids|
    decreases |ids|
  {
    if ids == [] then rows
    else
      var next := InsertIgnore(rows, tid, ids[0], now);
      var r := InsertAll(next, tid, ids[1..], now);
      PairsForCons(tid, ids);
      assert Pairs(next) == Pairs(rows) + {(tid, ids[0])};
      r
  }

  /** The rows already there stay, with their first assignment times. */
  lemma {:induction false} InsertAllKeeps(rows: seq<Assignment>, tid: nat, ids: seq<int>, now: nat)
    ensures InsertAll(rows, tid, ids, now)[..|rows|] == rows
    decreases |ids|
  {
    if ids != [] {
      var next := InsertIgnore(rows, tid, ids[0], now);
      InsertAllKeeps(next, tid, ids[1..], now);
      var r := InsertAll(rows, tid, ids, now);
      assert r[..|rows|] == r[..|next|][..|rows|];
    }
  }

  /** `InsertAll` keeps every pair once. */
  lemma {:induction false} InsertAllUnique(rows: seq<Assignment>, tid: nat, ids: seq<int>, now: nat)
    requires UniquePairs(rows)
    ensures UniquePairs(InsertAll(rows, tid, ids, now))
    decreases |ids|
  {
    if ids != [] {
      InsertIgnoreUnique(rows, tid, ids[0], now);
      InsertAllUnique(InsertIgnore(rows, tid, ids[0], now), tid, ids[1..], now);
    }
  }

  /**
   * The ids `api_tecnico_asignar_otro` reads: `usuario_ids or []`, which must be a list
   * whose every element `int()` accepts.
   */
  function OtherIds(raw: Json): (r: Option<seq<int>>)
    ensures !Truthy(raw) ==> r == Some([])
    ensures Truthy(raw) && !raw.JList? ==> r == None
    ensures raw.JList? ==> r == IntsOfItems(raw.items)
  {
    var list := if Truthy(raw) then raw else JList([]);
    if !list.JList? then None else IntsOf(list)
  }

  /**
   * `api_tecnico_asignar_otro`. `raw` is the request's `usuario_ids` (`JNull` when
   * absent). Refused for a bad id list and then for a caller who is not one of the
   * ticket's technicians; otherwise every listed user becomes one (once), and
   * nothing else changes. The ticket itself is neither checked nor updated.
   */
  function AssignOthers(db: Db, caller: Caller, tid: nat, raw: Json, now: nat): (r: (Result<()>, Db))
    ensures caller.role != Technician ==> r.0 == Err(RoleDenied)
    ensures caller.role == Technician && OtherIds(raw).None? ==> r.0 == Err(InvalidUserIds)
    ensures caller.role == Technician && OtherIds(raw).Some? && !IsAssigned(db.assignments, tid, caller.id) ==>
      r.0 == Err(NotAssigned)
    ensures r.0.Err? ==> r.1 == db
    ensures r.0.Ok? <==> caller.role == Technician && OtherIds(raw).Some? && IsAssigned(db.assignments, tid, caller.id)
    ensures r.0.Ok? ==> r.1.assignments == InsertAll(db.assignments, tid, OtherIds(raw).value, now)
    ensures r.0.Ok? ==> Pairs(r.1.assignments) == Pairs(db.assignments) + PairsFor(tid, OtherIds(raw).value)
    ensures r.1.tickets == db.tickets && r.1.notes == db.notes
    ensures r.1.attachments == db.attachments && r.1.surveys == db.surveys
  {
    if caller.role != Technician then (Err(RoleDenied), db)
    else
      var ids := OtherIds(raw);
      if ids.None? then (Err(InvalidUserIds), db)
      else if !IsAssigned(db.assignments, tid, caller.id) then (Err(NotAssigned), db)
      else (Ok(()), db.(assignments := InsertAll(db.assignments, tid, ids.value, now)))
  }

  // ------------------------------------------------------------------ states

  /**
   * The target of `api_tecnico_cambiar_estado`: the upper-cased request value, one of
   * EN_CURSO, RESUELTO and CANCELADO. PENDIENTE and anything else are refused.
   */
  function TargetState(raw: string): (r: Option<State>)
    ensures r.Some? <==> ParseState(Upper(raw)).Some? && ParseState(Upper(raw)).value != Pendiente
    ensures r.Some? ==> r.value != Pendiente && StateName(r.value) == Upper(raw)
  {
    var st := ParseState(Upper(raw));
    if st == Some(Pendiente) then None else st
  }

  /**
   * The UPDATE of `api_tecnico_cambiar_estado`: the new state, and for RESUELTO and
   * CANCELADO a new closure time; EN_CURSO leaves the closure time as it was.
   */
  function MoveTicket(t: Ticket, st: State, now: nat): (r: Ticket)
    ensures r.state == st
    ensures st.IsClosed() ==> r.closedAt == Some(now)
    ensures !st.IsClosed() ==> r.closedAt == t.closedAt
    ensures r.(state := t.state, closedAt := t.closedAt) == t
  {
    t.(state := st, closedAt := if st.IsClosed() then Some(now) else t.closedAt)
  }

  /**
   * The checks of `api_tecnico_cambiar_estado`, in their order: the role, the target
   * state, the note a resolution needs, and the caller's assignment to the ticket.
   */
  function ChangeRefusal(db: Db, caller: Caller, tid: nat, estadoRaw: string, notaRaw: string): (e: Option<Error>)
    ensures caller.role != Technician ==> e == Some(RoleDenied)
    ensures caller.role == Technician && TargetState(estadoRaw).None? ==> e == Some(InvalidTargetState)
    ensures caller.role == Technician && TargetState(estadoRaw) == Some(Resuelto) && Strip(notaRaw) == [] ==>
      e == Some(NoteRequired)
    ensures e.None? <==>
      && caller.role == Technician
      && TargetState(estadoRaw).Some?
      && (TargetState(estadoRaw) == Some(Resuelto) ==> Strip(notaRaw) != [])
      && IsAssigned(db.assignments, tid, caller.id)
    ensures e.Some? && e != Some(RoleDenied) && e != Some(InvalidTargetState) && e != Some(NoteRequired) ==>
      e == Some(NotAssigned)
  {
    if caller.role != Technician then Some(RoleDenied)
    else
      var st := TargetState(estadoRaw);
      if st.None? then Some(InvalidTargetState)
      else if st.value == Resuelto && Strip(notaRaw) == [] then Some(NoteRequired)
      else if !IsAssigned(db.assignments, tid, caller.id) then Some(NotAssigned)
      else None
  }

  /**
   * `api_tecnico_cambiar_estado`. A refusal leaves the tables untouched. Otherwise the
   * ticket, if it exists, is moved as `MoveTicket` says, and a non-empty note is
   * recorded under the caller's name, whatever the target state.
   */
  function ChangeState(db: Db, caller: Caller, tid: nat, estadoRaw: string, notaRaw: string, now: nat): (r: (Result<()>, Db))
    ensures r.0.Err? <==> ChangeRefusal(db, caller, tid, estadoRaw, notaRaw).Some?
    ensures r.0.Err? ==> r.0.error == ChangeRefusal(db, caller, tid, estadoRaw, notaRaw).value && r.1 == db
    ensures r.0.Ok? && Lookup(db, tid).Some? ==>
      r.1.tickets == db.tickets[tid - 1 := MoveTicket(db.tickets[tid - 1], TargetState(estadoRaw).value, now)]
    ensures Lookup(db, tid).None? ==> r.1.tickets == db.tickets
    ensures r.0.Ok? && Strip(notaRaw) != [] ==> r.1.notes == db.notes + [Note(tid, caller.id, Strip(notaRaw), now)]
    ensures Strip(notaRaw) == [] ==> r.1.notes == db.notes
    ensures r.1.assignments == db.assignments && r.1.attachments == db.attachments && r.1.surveys == db.surveys
  {
    var refusal := ChangeRefusal(db, caller, tid, estadoRaw, notaRaw);
    if refusal.Some? then (Err(refusal.value), db)
    else (Ok(()), Move(db, caller.id, tid, TargetState(estadoRaw).value, Strip(notaRaw), now))
  }

  /**
   * What an accepted change writes: the UPDATE of ticket `tid` (when it exists) to
   * state `st`, then the note `nota` by technician `uid` unless it is empty.
   */
  function Move(db: Db, uid: int, tid: nat, st: State, nota: string, now: nat): (r: Db)
    ensures 1 <= tid <= |db.tickets| ==> r.tickets == db.tickets[tid - 1 := MoveTicket(db.tickets[tid - 1], st, now)]
    ensures !(1 <= tid <= |db.tickets|) ==> r.tickets == db.tickets
    ensures r.notes == if nota != [] then db.notes + [Note(tid, uid, nota, now)] else db.notes
    ensures r.assignments == db.assignments && r.attachments == db.attachments && r.surveys == db.surveys
  {
    var ts := if 1 <= tid <= |db.tickets| then SetTicket(db.tickets, tid, MoveTicket(db.tickets[tid - 1], st, now)) else db.tickets;
    var notes := if nota != [] then db.notes + [Note(tid, uid, nota, now)] else db.notes;
    db.(tickets := ts, notes := notes)
  }

  /**
   * `api_tecnico_agregar_nota`: any technician may write a note on any ticket (no
   * assignment is checked); a blank text is refused.
   */
  function AddNote(db: Db, caller: Caller, tid: nat, textoRaw: string, now: nat): (r: (Result<()>, Db))
    ensures caller.role != Technician ==> r.0 == Err(RoleDenied)
    ensures caller.role == Technician && Strip(textoRaw) == [] ==> r.0 == Err(TextRequired)
    ensures r.0.Ok? <==> caller.role == Technician && Strip(textoRaw) != []
    ensures r.0.Err? ==> r.1 == db
    ensures r.0.Ok? ==> r.1.notes == db.notes + [Note(tid, caller.id, Strip(textoRaw), now)]
    ensures r.1.tickets == db.tickets && r.1.assignments == db.assignments
    ensures r.1.attachments == db.attachments && r.1.surveys == db.surveys
  {
    if caller.role != Technician then (Err(RoleDenied), db)
    else
      var texto := Strip(textoRaw);
      if texto == [] then (Err(TextRequired), db)
      else (Ok(()), db.(notes := db.notes + [Note(tid, caller.id, texto, now)]))
  }

  // ------------------------------------------------------------------ evidence

  /** The position of the last `c` in `s`, or -1 when there is none (`str.rfind`). */
  function LastIndexOf(s: string, c: char): (r: int)
    ensures -1 <= r < |s|
  {
    if s == [] then -1
    else if s[|s| - 1] == c then |s| - 1
    else LastIndexOf(s[..|s| - 1], c)
  }

  lemma {:induction false} LastIndexOfFacts(s: string, c: char)
    ensures LastIndexOf(s, c) >= 0 ==> s[LastIndexOf(s, c)] == c
    ensures forall k :: LastIndexOf(s, c) < k < |s| ==> s[k] != c
  {
    if s != [] && s[|s| - 1] != c {
      LastIndexOfFacts(s[..|s| - 1], c);
    }
  }

  /** Every character of `s` is a dot. */
  predicate AllDots(s: string) {
    forall k :: 0 <= k < |s| ==> s[k] == '.'
  }

  /**
   * The extension `os.path.splitext` finds: from the last dot of the last path
   * component to the end, unless every character before that dot in the component is
   * a dot (a leading-dot name such as `.bashrc` has none).
   */
  function Extension(p: string): (r: string)
    ensures |r| <= |p|
    ensures r == [] || r[0] == '.'
  {
    LastIndexOfFacts(p, '.');
    var sep := LastIndexOf(p, '/');
    var dot := LastIndexOf(p, '.');
    if dot > sep && !AllDots(p[sep + 1..dot]) then p[dot..] else []
  }

  /** An extension is a tail of the name that starts with its only dot and holds no slash. */
  lemma ExtensionShape(p: string)
    ensures Extension(p) == p[|p| - |Extension(p)|..]
    ensures Extension(p) == [] || Extension(p)[0] == '.'
    ensures forall k :: 0 <= k < |Extension(p)| ==> Extension(p)[k] != '/'
    ensures forall k :: 1 <= k < |Extension(p)| ==> Extension(p)[k] != '.'
  {
    var r := Extension(p);
    var sep := LastIndexOf(p, '/');
    var dot := LastIndexOf(p, '.');
    LastIndexOfFacts(p, '/');
    LastIndexOfFacts(p, '.');
    if r != [] {
      assert r == p[dot..];
      forall k | 0 <= k < |r| ensures r[k] != '/' && (k >= 1 ==> r[k] != '.') {
        assert r[k] == p[dot + k];
      }
    }
  }

  /**
   * A name whose last component has a character other than a dot somewhere before
   * its last dot has an extension: from that dot to the end.
   */
  lemma ExtensionFound(p: string, i: nat, j: nat)
    requires i < j < |p| && p[i] != '.' && p[j] == '.'
    requires forall k :: i <= k < |p| ==> p[k] != '/'
    requires forall k :: j < k < |p| ==> p[k] != '.'
    ensures Extension(p) == p[j..]
  {
    LastIndexOfAt(p, '.', j);
    LastIndexOfBelow(p, '/', i);
    var sep := LastIndexOf(p, '/');
    assert p[sep + 1..j][i - sep - 1] == p[i];
  }

  /** `rfind` finds a `c` with no `c` after it. */
  lemma {:induction false} LastIndexOfAt(s: string, c: char, j: nat)
    requires j < |s| && s[j] == c
    requires forall k :: j < k < |s| ==> s[k] != c
    ensures LastIndexOf(s, c) == j
  {
    if j < |s| - 1 {
      assert s[|s| - 1] != c;
      LastIndexOfAt(s[..|s| - 1], c, j);
    }
  }

  /** With no `c` from position `i` on, `rfind` answers a position before `i`. */
  lemma {:induction false} LastIndexOfBelow(s: string, c: char, i: nat)
    requires forall k :: i <= k < |s| ==> s[k] != c
    ensures LastIndexOf(s, c) < i
  {
    if s != [] && i < |s| {
      assert s[|s| - 1] != c;
      LastIndexOfBelow(s[..|s| - 1], c, i);
    }
  }

  /** The stored name of the `index`-th evidence image: `<stamp>_<index>` and the lower-cased extension. */
  function EvidenceName(stamp: string, index: nat, f: Upload): StoredName {
    EvidenceImage(stamp, index, Lower(Extension(f.filename)))
  }

  /**
   * The files the loop of `api_tecnico_subir_evidencia` keeps, with `count` images
   * already kept: it stops at three and skips what is not an image, so it keeps the
   * first images of the list.
   */
  function EvidenceFiles(files: seq<Upload>, count: nat): (r: seq<Upload>)
    requires count <= 3
    ensures |r| <= 3 - count
    decreases |files|
  {
    if files == [] || count >= 3 then []
    else if IsImage(files[0]) then [files[0]] + EvidenceFiles(files[1..], count + 1)
    else EvidenceFiles(files[1..], count)
  }

  /** The kept files are the first `3 - count` images, or all of them when there are fewer. */
  lemma {:induction false} EvidenceFilesFirstImages(files: seq<Upload>, count: nat)
    requires count <= 3
    ensures |EvidenceFiles(files, count)| == Min(3 - count, |Images(files)|)
    ensures EvidenceFiles(files, count) == Images(files)[..|EvidenceFiles(files, count)|]
    decreases |files|
  {
    if files != [] && count < 3 {
      assert Images(files) == (if IsImage(files[0]) then [files[0]] else []) + Images(files[1..]);
      if IsImage(files[0]) {
        EvidenceFilesFirstImages(files[1..], count + 1);
      } else {
        EvidenceFilesFirstImages(files[1..], count);
      }
    }
  }

  /** The rows stored for the kept files, numbered from `start`. */
  function EvidenceAttachments(tid: nat, stamp: string, kept: seq<Upload>, start: nat): (r: seq<Attachment>)
    ensures |r| == |kept|
    ensures forall i :: 0 <= i < |r| ==> r[i] == Attachment(tid, EvidenceName(stamp, start + i, kept[i]))
    decreases |kept|
  {
    if kept == [] then []
    else [Attachment(tid, EvidenceName(stamp, start, kept[0]))] + EvidenceAttachments(tid, stamp, kept[1..], start + 1)
  }

  /** The `ticket_attachments` rows of one evidence upload. */
  function EvidenceRows(tid: nat, stamp: string, files: seq<Upload>): (r: seq<Attachment>)
    ensures |r| == Min(3, |Images(files)|)
    ensures forall i :: 0 <= i < |r| ==> r[i] == Attachment(tid, EvidenceName(stamp, i, Images(files)[i]))
  {
    EvidenceFilesFirstImages(files, 0);
    EvidenceAttachments(tid, stamp, EvidenceFiles(files, 0), 0)
  }

  /**
   * `api_tecnico_subir_evidencia`. Refused for a caller not assigned to the ticket,
   * for an empty file list, and (writing nothing) when none of the files is an image;
   * otherwise the first three images are stored as the ticket's attachments and the
   * answer is how many.
   */
  function UploadEvidence(db: Db, caller: Caller, tid: nat, files: seq<Upload>, stamp: string): (r: (Result<nat>, Db))
    ensures caller.role != Technician ==> r.0 == Err(RoleDenied)
    ensures caller.role == Technician && !IsAssigned(db.assignments, tid, caller.id) ==> r.0 == Err(NotAssigned)
    ensures caller.role == Technician && IsAssigned(db.assignments, tid, caller.id) && files == [] ==> r.0 == Err(NoImagesSent)
    ensures caller.role == Technician && IsAssigned(db.assignments, tid, caller.id) && files != [] && Images(files) == [] ==>
      r.0 == Err(InvalidFiles)
    ensures r.0.Ok? <==> caller.role == Technician && IsAssigned(db.assignments, tid, caller.id) && Images(files) != []
    ensures r.0.Err? ==> r.1 == db
    ensures r.0.Ok? ==> 1 <= r.0.value <= 3 && r.0.value == Min(3, |Images(files)|)
    ensures r.0.Ok? ==> r.1.attachments == db.attachments + EvidenceRows(tid, stamp, files)
    ensures r.1.tickets == db.tickets && r.1.assignments == db.assignments
    ensures r.1.notes == db.notes && r.1.surveys == db.surveys
  {
    if caller.role != Technician then (Err(RoleDenied), db)
    else if !IsAssigned(db.assignments, tid, caller.id) then (Err(NotAssigned), db)
    else if files == [] then (Err(NoImagesSent), db)
    else
      var rows := EvidenceRows(tid, stamp, files);
      if |rows| == 0 then (Err(InvalidFiles), db)
      else (Ok(|rows|), db.(attachments := db.attachments + rows))
  }
}
