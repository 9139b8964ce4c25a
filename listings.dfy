/**
 * The read-only selections: the pending-survey list (`_encuestas_pendientes`),
 * a requester's own tickets (`api_mis_tickets`) and a technician's three scopes
 * (`api_tecnico_tickets`), each `ORDER BY creado_en DESC` with an optional `LIMIT`.
 */
module Listings {
  import opened Wrappers
  import opened Text
  import opened Tables

  predicate NewestFirst(ts: seq<Ticket>) {
    forall i, j :: 0 <= i < j < |ts| ==> ts[i].createdAt >= ts[j].createdAt
  }

  /** A ticket no older than any of a sorted list can go in front of it. */
  lemma PrependSorted(x: Ticket, ts: seq<Ticket>)
    requires NewestFirst(ts)
    requires forall u :: u in ts ==> u.createdAt <= x.createdAt
    ensures NewestFirst([x] + ts)
  {
    forall i, j | 0 <= i < j < |[x] + ts| ensures ([x] + ts)[i].createdAt >= ([x] + ts)[j].createdAt {
      if i > 0 {
        assert ([x] + ts)[i] == ts[i - 1];
      }
      assert ([x] + ts)[j] == ts[j - 1];
      assert ts[j - 1] in ts;
    }
  }

  /** Puts `t` before the first ticket that is not newer than it. */
  function Insert(t: Ticket, ts: seq<Ticket>): (r: seq<Ticket>)
    requires NewestFirst(ts)
    ensures NewestFirst(r)
    ensures multiset(r) == multiset(ts) + multiset{t}
  {
    if ts == [] || ts[0].createdAt <= t.createdAt then
      forall u | u in ts ensures u.createdAt <= t.createdAt {
        var k :| 0 <= k < |ts| && ts[k] == u;
      }
      PrependSorted(t, ts);
      [t] + ts
    else
      var rest := Insert(t, ts[1..]);
      assert ts == [ts[0]] + ts[1..];
      forall u | u in rest ensures u.createdAt <= ts[0].createdAt {
        assert u in multiset(rest);
        assert u == t || u in multiset(ts[1..]);
        if u != t {
          var k :| 0 <= k < |ts[1..]| && ts[1..][k] == u;
          assert ts[k + 1] == u;
        }
      }
      PrependSorted(ts[0], rest);
      [ts[0]] + rest
  }

  /**
   * `ORDER BY creado_en DESC`, newest first. Tickets created at the same second keep
   * their order (ascending id): the source leaves that tie to the database.
   */
  function SortNewestFirst(ts: seq<Ticket>): (r: seq<Ticket>)
    ensures NewestFirst(r)
    ensures multiset(r) == multiset(ts)
    ensures |r| == |ts|
  {
    if ts == [] then []
    else
      assert ts == [ts[0]] + ts[1..];
      Insert(ts[0], SortNewestFirst(ts[1..]))
  }

  lemma SortedMembers(ts: seq<Ticket>)
    ensures |SortNewestFirst(ts)| == |ts|
    ensures forall t :: t in SortNewestFirst(ts) <==> t in ts
  {
    var r := SortNewestFirst(ts);
    assert |r| == |multiset(r)| == |multiset(ts)| == |ts|;
    forall t ensures t in r <==> t in ts {
      assert t in r <==> t in multiset(r);
      assert t in ts <==> t in multiset(ts);
    }
  }

  /** The tickets of `ts` that satisfy `p`, in their order (a `WHERE` clause). */
  function Select(ts: seq<Ticket>, p: Ticket -> bool): (r: seq<Ticket>)
    ensures forall t :: t in r <==> t in ts && p(t)
    ensures |r| <= |ts|
    ensures multiset(r) <= multiset(ts)
  {
    if ts == [] then []
    else
      assert forall t :: t in ts <==> t == ts[0] || t in ts[1..];
      assert ts == [ts[0]] + ts[1..];
      (if p(ts[0]) then [ts[0]] else []) + Select(ts[1..], p)
  }

  /** A non-empty sequence holds its first element. */
  lemma HeadIn<T>(s: seq<T>)
    ensures s == [] || s[0] in s
  {
  }

  function Min(a: nat, b: nat): nat {
    if a < b then a else b
  }

  /**
   * `ORDER BY creado_en DESC LIMIT cap`: the `cap` newest tickets of `ts`, newest
   * first. A ticket left out is no newer than any ticket kept.
   */
  function Newest(ts: seq<Ticket>, cap: nat): (r: seq<Ticket>)
    ensures |r| == Min(cap, |ts|)
    ensures NewestFirst(r)
    ensures forall t :: t in r ==> t in ts
    ensures multiset(r) <= multiset(ts)
    ensures |ts| <= cap ==> forall t :: t in ts ==> t in r
    ensures forall t, u :: t in ts && t !in r && u in r ==> u.createdAt >= t.createdAt
  {
    var s := SortNewestFirst(ts);
    NewestFacts(ts, cap);
    s[..Min(cap, |ts|)]
  }

  lemma NewestFacts(ts: seq<Ticket>, cap: nat)
    ensures var s := SortNewestFirst(ts); var r := s[..Min(cap, |ts|)];
      && |r| == Min(cap, |ts|)
      && (forall t :: t in r ==> t in ts)
      && multiset(r) <= multiset(ts)
      && (|ts| <= cap ==> forall t :: t in ts ==> t in r)
      && (forall t, u :: t in ts && t !in r && u in r ==> u.createdAt >= t.createdAt)
  {
    var s := SortNewestFirst(ts);
    SortedMembers(ts);
    var n := Min(cap, |ts|);
    PrefixFacts(s, n);
    if |ts| <= cap {
      assert s[..n] == s;
    }
  }

  /** A prefix of a newest-first list keeps only its members, and none older than what it drops. */
  lemma PrefixFacts(s: seq<Ticket>, n: nat)
    requires NewestFirst(s) && n <= |s|
    ensures forall t :: t in s[..n] ==> t in s
    ensures multiset(s[..n]) <= multiset(s)
    ensures forall t, u :: t in s && t !in s[..n] && u in s[..n] ==> u.createdAt >= t.createdAt
  {
    var r := s[..n];
    assert s == r + s[n..];
    forall t | t in r ensures t in s {
      var i :| 0 <= i < n && r[i] == t;
      assert s[i] == t;
    }
    forall t, u | t in s && t !in r && u in r ensures u.createdAt >= t.createdAt {
      var k :| 0 <= k < |s| && s[k] == t;
      var i :| 0 <= i < n && r[i] == u;
      assert s[i] == u;
    }
  }

  // ------------------------------------------------------------- pending surveys

  /** The states whose tickets owe a survey: RESUELTO, and CANCELADO too when asked. */
  predicate OwesSurvey(st: State, includeCancelled: bool) {
    st == Resuelto || (includeCancelled && st == Cancelado)
  }

  /**
   * `_encuestas_pendientes(uid, incluir_cancelados)`: exactly the tickets of `uid` in
   * a survey-owing state that have no survey yet, newest first.
   */
  function PendingSurveys(db: Db, uid: int, includeCancelled: bool): (r: seq<Ticket>)
    ensures forall t :: t in r <==> t in db.tickets && IsPending(db, uid, includeCancelled, t)
    ensures multiset(r) <= multiset(db.tickets)
    ensures NewestFirst(r)
  {
    var selected := Select(db.tickets, (t: Ticket) => IsPending(db, uid, includeCancelled, t));
    SortedMembers(selected);
    SortNewestFirst(selected)
  }

  /** A ticket of `uid` that owes a survey and has none. */
  predicate IsPending(db: Db, uid: int, includeCancelled: bool, t: Ticket) {
    t.owner == uid && OwesSurvey(t.state, includeCancelled) && !HasSurvey(db.surveys, t.id)
  }

  // --------------------------------------------------------------- mis-tickets

  /**
   * The states the `estado` query parameter of `api_mis_tickets` selects: FINALIZADOS
   * is both closed states, a state name is that state, anything else (also no
   * parameter) is both open states.
   */
  function MineStates(estadoRaw: string): (r: set<State>)
    ensures r != {}
    ensures Upper(estadoRaw) == "FINALIZADOS" ==> forall st :: st in r <==> st.IsClosed()
    ensures forall st :: StateName(st) == Upper(estadoRaw) ==> r == {st}
    ensures Upper(estadoRaw) != "FINALIZADOS" && ParseState(Upper(estadoRaw)).None? ==>
      forall st :: st in r <==> st.IsOpen()
  {
    var e := Upper(estadoRaw);
    if e == "FINALIZADOS" then {Resuelto, Cancelado}
    else if ParseState(e).Some? then {ParseState(e).value}
    else {Pendiente, EnCurso}
  }

  const MineCap: nat := 200
  const TechnicianCap: nat := 300

  /**
   * `api_mis_tickets`: at most 200 of the caller's own tickets in the selected states,
   * newest first; a matching ticket is missing only when 200 newer-or-equal ones are shown.
   */
  function MyTickets(db: Db, caller: Caller, estadoRaw: string): (r: Result<seq<Ticket>>)
    ensures caller.role != Requester <==> r == Err(RoleDenied)
    ensures r.Ok? ==> |r.value| <= MineCap && NewestFirst(r.value)
    ensures r.Ok? ==> multiset(r.value) <= multiset(db.tickets)
    ensures r.Ok? ==> forall t :: t in r.value ==>
      t in db.tickets && t.owner == caller.id && t.state in MineStates(estadoRaw)
    ensures r.Ok? ==> forall t :: t in db.tickets && t.owner == caller.id && t.state in MineStates(estadoRaw) ==>
      t in r.value || (|r.value| == MineCap && forall u :: u in r.value ==> u.createdAt >= t.createdAt)
  {
    if caller.role != Requester then Err(RoleDenied)
    else
      var states := MineStates(estadoRaw);
      var selected := Select(db.tickets, (t: Ticket) => t.owner == caller.id && t.state in states);
      var r := Newest(selected, MineCap);
      assert forall t :: t in selected && t !in r ==> |r| == MineCap;
      Ok(r)
  }

  // ----------------------------------------------------------- technician scopes

  /** The `scope` query parameter of `api_tecnico_tickets`. */
  datatype Scope = Available | Mine | History

  /** `(scope or "disponibles").lower()`: "asignados", "historial", and anything else is "disponibles". */
  function ParseScope(scopeRaw: string): (r: Scope)
    ensures Lower(scopeRaw) == "asignados" ==> r == Mine
    ensures Lower(scopeRaw) == "historial" ==> r == History
    ensures r == Available <==> Lower(scopeRaw) != "asignados" && Lower(scopeRaw) != "historial"
  {
    var s := Lower(if scopeRaw == "" then "disponibles" else scopeRaw);
    if s == "asignados" then Mine
    else if s == "historial" then History
    else Available
  }

  /** Some technician is associated with the ticket. */
  predicate HasTechnicians(rows: seq<Assignment>, tid: int) {
    exists i :: 0 <= i < |rows| && rows[i].ticketId == tid
  }

  /**
   * The tickets of a scope: "disponibles" are PENDIENTE with no technician at all,
   * "asignados" are open and have the caller among their technicians, "historial"
   * are closed and have the caller among their technicians.
   */
  predicate InScope(db: Db, scope: Scope, uid: int, t: Ticket) {
    match scope
    case Available => t.state == Pendiente && !HasTechnicians(db.assignments, t.id)
    case Mine => IsAssigned(db.assignments, t.id, uid) && t.state.IsOpen()
    case History => IsAssigned(db.assignments, t.id, uid) && t.state.IsClosed()
  }

  /** `api_tecnico_tickets`: at most 300 tickets of the scope, newest first. */
  function TechnicianTickets(db: Db, caller: Caller, scopeRaw: string): (r: Result<seq<Ticket>>)
    ensures caller.role != Technician <==> r == Err(RoleDenied)
    ensures r.Ok? ==> |r.value| <= TechnicianCap && NewestFirst(r.value)
    ensures r.Ok? ==> multiset(r.value) <= multiset(db.tickets)
    ensures r.Ok? ==> forall t :: t in r.value ==> t in db.tickets && InScope(db, ParseScope(scopeRaw), caller.id, t)
    ensures r.Ok? ==> forall t :: t in db.tickets && InScope(db, ParseScope(scopeRaw), caller.id, t) ==>
      t in r.value || (|r.value| == TechnicianCap && forall u :: u in r.value ==> u.createdAt >= t.createdAt)
  {
    if caller.role != Technician then Err(RoleDenied)
    else
      var scope := ParseScope(scopeRaw);
      var selected := Select(db.tickets, (t: Ticket) => InScope(db, scope, caller.id, t));
      var r := Newest(selected, TechnicianCap);
      assert forall t :: t in selected && t !in r ==> |r| == TechnicianCap;
      Ok(r)
  }
}
