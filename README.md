# Helpdesk ticket lifecycle, modelled in Dafny

This project models the ticket lifecycle of the MADI helpdesk (`app/app.py`). The
system is a Flask application over five MySQL tables:

- `tickets`
- `ticket_tecnicos`, the technicians of a ticket
- `ticket_notas`, the notes
- `ticket_attachments`
- `encuestas`, the satisfaction surveys

A requester (SOLICITANTE) can create a ticket and answer a survey about it once it is
closed. A technician (TECNICO) can:

- take a ticket;
- add colleagues to it;
- move it to another state;
- write notes;
- upload evidence images.

Two listings show tickets: a requester's own tickets and a technician's three scopes.

The model has three layers:

- **Pure modules.**
  - `Text`: Python's `strip`, ASCII `upper`/`lower`, the upload-name sanitiser, and the decimal conversions behind `int()` and `{n:02d}`.
  - `Inputs`: JSON and form values, `to_int_list`, `_s15` and `_s15_key`.
  - `Durations`: `_fmt_hms` and `_fmt`.
  - `Tables`: the rows, the five tables as one value `Db`, the shared lookups, and the invariant `Valid` the handlers keep.
  - `Listings`: the read-only selections.
- **Step functions.** Each handler of `Requester` and `Technician` is a function from the tables before the request to the answer and the tables after it. Every check is a refusal that leaves the tables untouched. `Lifecycle` holds the lemmas that relate several requests.
- **The mutable store.** `HelpDesk.Store` is a class with the five tables as fields and one method per handler. Each method does what the handler's SQL does, step by step, including the loops over uploaded files and over user ids. Each is proved to give exactly the answer and the tables of its step function, and to keep `Valid`.

Time (`NOW()`, the column defaults, the evidence time stamp) is a parameter in whole
seconds. The caller is a parameter: the session's user id and role. The caller's
`users.area_id` is also a parameter.

A ticket's closure time is not tied to its state in both directions. The code sets
`cerrado_en` on closing (app/app.py:666-671) and never clears it. A ticket moved from
RESUELTO back to EN_CURSO therefore stays open and keeps its closure time. The
invariant states only "closed implies a closure time", and
`Lifecycle.ReopenKeepsClosure` shows that the converse fails.

## Model

| member | source | states |
|---|---|---|
| Text.Strip | app/app.py:302-304 | `strip()`: the result is empty or begins and ends with a non-space; it is empty exactly when the input is all whitespace; an input with no space at either end is kept |
| Text.StripLeftFacts | app/app.py:302-304 | the left strip removes exactly the leading run of whitespace and keeps a suffix that starts with a non-space |
| Text.StripRightFacts | app/app.py:302-304 | the right strip removes exactly the trailing run of whitespace and keeps a prefix that ends with a non-space |
| Text.StripFacts | app/app.py:302-304 | both strips together give the three properties of `strip()` |
| Text.SanitizeFromSafe | app/app.py:359 | from either state the substitution keeps only `[a-zA-Z0-9._-]`, never lengthens the name, and leaves a safe name unchanged |
| Text.Sanitize | app/app.py:359 | `re.sub(r'[^a-zA-Z0-9._-]+','_', …)`: only safe characters, no longer than the input, identity on safe names |
| Text.SanitizeIdempotent | app/app.py:359 | sanitising twice is sanitising once |
| Text.SanitizeFromAppend | app/app.py:359 | a concatenation is sanitised part by part, the second part starting in the run state the first part ends in |
| Text.SanitizeFromCons | app/app.py:359 | one character: a safe one is kept, an unsafe one becomes `_` unless a run of them is already open |
| Text.SanitizeFromSafeStart | app/app.py:359 | before a safe character the run state does not matter |
| Text.SanitizeAppend | app/app.py:359 | `re.sub` works piecewise: cut at a safe character (or with an empty side), the result is the two parts sanitised |
| Text.SanitizeFromUnsafeRun | app/app.py:359 | inside a run, further characters to be replaced add nothing |
| Text.SanitizeUnsafeRun | app/app.py:359 | a non-empty run of characters outside the class becomes exactly one `_` |
| Text.DigitsOf | app/app.py:68 | the decimal spelling is non-empty, all digits, one digit exactly below 10, and has no leading zero |
| Text.ValueOfDigits | app/app.py:68 | the written digits denote the number they were made from |
| Text.UnsignedValueOfDigits | app/app.py:55 | `int()` without a sign reads the digits of `m` back as `m` |
| Text.ParseIntOfDigits | app/app.py:900 | `int(str(m)) == m` for every non-negative `m` |
| Text.Pad2 | app/app.py:68 | `{n:02d}`: at least two digits, exactly two below 100, no leading zero from 10 on, and the value is `n` |
| Text.CanonicalDigits | app/app.py:68 | digits without a needless leading zero are exactly `str` of their value |
| Text.PaddedDigits | app/app.py:68 | a field of two digits, or of more digits with no leading zero, is exactly `{n:02d}` of its value |
| Text.ParseIntFacts | app/app.py:73 | `int()` of a text holding U+001C..U+001F, or of a blank text, fails; a text that is plain digits once stripped is read as their value |
| Text.PlainDigitsGrouped | app/app.py:73 | plain digits are a literal `int()` accepts, with no underscore to drop |
| Inputs.Iterate | app/app.py:54-55 | `for v in values`: a list walks its items; null, booleans and numbers are not iterable (`TypeError`) |
| Inputs.PyInt | app/app.py:56 | `int(v)`: a boolean is 0 or 1, an integer is itself, a string is parsed, and null, a list or an object is a `TypeError` |
| Inputs.IntsOf | app/app.py:52-59 | `to_int_list`: `None` for a non-iterable value or when some item fails `int()`; otherwise one integer per item, the i-th being `int()` of the i-th item |
| Inputs.IntsOfItems | app/app.py:52-59 | a list is accepted exactly when every item converts with `int()`; the result has the same length and the converted items in order |
| Inputs.ToIntList | app/app.py:52-59 | the loop gives the result of `IntsOfItems` on what `values` iterates over, `None` exactly when some item fails, and one integer per item |
| Inputs.S15 | app/app.py:70-75 | `_s15`: a value exactly when `int(v)` succeeds and lies in 1..5, and then that value |
| Inputs.FormIntOfDigits | app/app.py:842 | `form.get(k, type=int)` reads a field holding the digits of `m` as `m` |
| Inputs.S15Key | app/app.py:898-902 | `_s15_key`: always absent or in 1..5; absent when the field is missing |
| Inputs.S15KeyOfDigits | app/app.py:898-902 | a field holding the digits of `m` yields `m` when 1 ≤ m ≤ 5 and nothing otherwise |
| Inputs.YesNo | app/app.py:913-914 | `q_identificacion` is "si", "no" or `None`; a value exactly when the lower-cased answer is one of the two, and then it is that answer |
| Durations.Split | app/app.py:888-890 | the two `divmod`s: `h*3600 + m*60 + s` is the seconds, with `m < 60` and `s < 60` |
| Durations.Hms | app/app.py:891 | `HH:MM:SS` ends in two two-digit fields separated by colons (what it denotes: `ParseHmsOfHms`, `HmsCanonical`) |
| Durations.FmtHms | app/app.py:61-68 | `_fmt_hms`: "" exactly for a missing or zero delta; otherwise a text that reads back as the delta floored at 0 |
| Durations.Fmt | app/app.py:886-891 | `_fmt`: `None` exactly for a missing or zero delta; otherwise the same text as `_fmt_hms`, reading back as the delta floored at 0 |
| Durations.ParseHmsOfHms | app/app.py:886-891 | the written duration reads back as exactly the seconds it was made from, under a reader that accepts only minutes and seconds below 60 and hours without a needless leading zero |
| Durations.HmsCanonical | app/app.py:886-891 | every text that reads as a duration is the one written for it, so the format is canonical and the written text is determined by the seconds |
| Durations.SplitOf | app/app.py:888-890 | hours, minutes below 60 and seconds below 60 are recovered from their total by the two `divmod`s |
| Durations.HmsOfSplit | app/app.py:891 | the text is the three padded fields of the split joined by colons |
| Durations.HmsFields | app/app.py:891 | a text with colons at the two field positions is its three fields joined by them |
| Tables.ParseState | app/app.py:272-278 | a recognised state name denotes the state whose name it is |
| Tables.ParseStateName | app/app.py:272-278 | every state's stored name is recognised as that state |
| Tables.Status | app/app.py:313-344 | 403 exactly for a wrong role, an unassigned technician or a requester who does not own the ticket; 404 exactly for an unknown ticket; 409 exactly for the quota, an unanswered survey or a repeated survey; 400 for every other refusal |
| Tables.Lookup | app/app.py:849-857 | `SELECT … WHERE id=%s` finds a row exactly for the ids 1..n handed out, and it is the row at that position |
| Tables.LookupById | app/app.py:849-857 | under the invariant, the lookup finds a row exactly when some ticket has that `id`, and the row found has it |
| Tables.IsAssignedRow | app/app.py:632-633 | the technician check holds exactly when some `ticket_tecnicos` row has both the ticket id and the user id |
| Tables.InsertIgnore | app/app.py:604-607 | `INSERT IGNORE`: the pair set gains exactly `(tid, uid)`; old rows stay; a present pair changes nothing; an absent one is appended with the current time |
| Tables.InsertIgnoreUnique | app/app.py:604-607 | `INSERT IGNORE` never duplicates a pair |
| Tables.FirstAssignedAt | app/app.py:873-878 | `MIN(creado_en)`: absent exactly when the ticket has no technician; otherwise the time of one of its rows and no later than any of them |
| Tables.TotalTickets | app/app.py:102-110 | `_total_tickets_count` never exceeds the number of tickets |
| Tables.TotalTicketsAppend | app/app.py:102-110 | a new ticket adds one to its owner's count and nothing to anyone else's |
| Tables.TotalTicketsUpdate | app/app.py:102-110 | the count covers every state: changing a ticket without changing its owner changes no count |
| Listings.Insert | app/app.py:94 | inserting into a newest-first list keeps it newest first and adds exactly the one ticket |
| Listings.SortNewestFirst | app/app.py:94 | `ORDER BY creado_en DESC`: newest first, and a permutation of the input |
| Listings.SortedMembers | app/app.py:94 | sorting keeps the length and exactly the same tickets |
| Listings.Select | app/app.py:91-93 | a `WHERE` clause keeps exactly the rows satisfying it, each no more often than in the table |
| Listings.Newest | app/app.py:280 | `ORDER BY … LIMIT cap`: `min(cap, n)` tickets, newest first, a sub-multiset of the input, all of it when it fits, and none older than a ticket left out |
| Listings.NewestFacts | app/app.py:280 | the first `min(cap, n)` sorted tickets have the properties `Newest` promises, multiplicities included |
| Listings.PrefixFacts | app/app.py:280 | a prefix of a newest-first list is a sub-multiset of it and none of its tickets is older than one it drops |
| Listings.PendingSurveys | app/app.py:77-100 | `_encuestas_pendientes`: exactly the user's RESUELTO tickets (also CANCELADO when asked) with no survey, each at most as often as in the table, newest first |
| Listings.MineStates | app/app.py:272-278 | FINALIZADOS selects exactly the closed states; a state name selects exactly that state; anything else (also no parameter) selects exactly the open states |
| Listings.ParseScope | app/app.py:460 | "asignados" and "historial", in any case, select their scopes; anything else, also no parameter, is "disponibles" |
| Listings.MyTickets | app/app.py:241-286 | requesters only; at most 200 of the caller's own tickets in the selected states, each at most as often as in the table, newest first, and a matching ticket is missing only when 200 no-older ones are shown |
| Listings.TechnicianTickets | app/app.py:459-508 | technicians only; at most 300 tickets of the scope (available, mine, history), each at most as often as in the table, newest first, and a matching ticket is missing only when 300 no-older ones are shown |
| Requester.IsImage | app/app.py:357 | a file is an image exactly when it has a name and its MIME type starts with `image/` |
| Requester.Images | app/app.py:356-358 | the images among the files are no more than the files |
| Requester.ImagesMembers | app/app.py:356-358 | the filter keeps every image, and nothing that is not an image |
| Requester.ImagesAppend | app/app.py:356-358 | the filter goes file by file: the images of a concatenation are the images of each part in order, and a single file is kept exactly when it is an image |
| Requester.RequesterImages | app/app.py:356-365 | one attachment row per image, in order, linked to the ticket, named from its sanitised file name |
| Requester.RequesterImagesBounded | app/app.py:354-365 | creation adds at most three attachments, all for the new ticket and all from image files sent |
| Requester.FirstThree | app/app.py:356 | `files[:3]`: a prefix of the files, of length three or all of them |
| Requester.Subject | app/app.py:346 | `tipo[:180]`: the prefix of length `min(180, len(tipo))` |
| Requester.CreateRefusal | app/app.py:313-344 | the checks in order: role, name, type and description, quota (with count and limit), pending survey (with the tickets), then area; no refusal exactly when all pass |
| Requester.NewTicketRow | app/app.py:346-352 | the inserted row is PENDIENTE, owned by the caller, created now, with no closure time or primary technician, the stripped name and description, and the stripped type cut to `min(180, len)` characters |
| Requester.Admit | app/app.py:346-367 | one PENDIENTE ticket owned by the caller with the next id and the 180-character subject; the caller's count rises by one and no one else's changes; the images among the first three files are attached; nothing else changes |
| Requester.CreateTicket | app/app.py:298-371 | a refusal exactly when a check fails, with the tables untouched; otherwise the answer is the new id and the tables are those `Admit` describes |
| Requester.Elapsed | app/app.py:893-894 | a difference exactly when both ends are known, and it is the closure time minus the start |
| Requester.ServiceTime | app/app.py:893 | `t_servicio`: absent exactly with no closure time or none elapsed; otherwise reads back as the creation-to-closure seconds floored at 0 |
| Requester.AttentionTime | app/app.py:894 | `t_atencion`: absent exactly with no closure or assignment time or none elapsed; otherwise reads back as the assignment-to-closure seconds floored at 0 |
| Requester.RatingsOf | app/app.py:898-911 | each of the seven ratings is `_s15_key` of its own field: in 1..5 or absent, and absent for a missing field |
| Requester.Attended | app/app.py:895 | `atendida` is "si" exactly when the ticket is RESUELTO, and "no" otherwise |
| Requester.SurveyOf | app/app.py:882-922 | the survey row carries the ticket, both durations, the seven ratings of the form, the identification answer as `YesNo` reads it, the stripped comments, and "si" for attended exactly when RESUELTO |
| Requester.SurveyTicketId | app/app.py:842-844 | `ticket_id` is named exactly when `form.get(..., type=int)` gives a non-zero integer, and then it is that integer |
| Requester.NewSurvey | app/app.py:882-957 | the stored survey has the next id, the named ticket, the stripped suggestions, the ticket's durations from its creation and first assignment, its attended flag, the ratings and the identification |
| Requester.SurveyRefusal | app/app.py:840-919 | the checks in order: role, missing ticket id, unknown ticket, not the owner, not closed, survey exists, empty suggestions; no refusal exactly when all pass |
| Requester.SubmitSurvey | app/app.py:839-960 | a refusal exactly when a check fails, with the tables untouched; otherwise exactly one survey for the named ticket is appended and its id is the answer |
| Requester.SubmitSurveyRecords | app/app.py:863-866 | after a stored survey the ticket has one, so the same form is then refused as a conflict |
| Technician.SetTicket | app/app.py:608-613 | `UPDATE … WHERE id=%s` replaces the ticket with that id and no other, and does nothing for an unknown id |
| Technician.TakeTicket | app/app.py:608-613 | PENDIENTE becomes EN_CURSO and any other state stays; the primary technician is set only when there is none; nothing else changes |
| Technician.Claim | app/app.py:600-617 | technicians only; the pair is then assigned (inserted once) and an existing ticket is updated as `TakeTicket` says; the other tables are untouched |
| Technician.InsertAll | app/app.py:636-640 | the loop of `INSERT IGNORE`s adds exactly the pairs of the ticket with the listed ids, and at most one row per id |
| Technician.InsertAllKeeps | app/app.py:636-640 | existing rows stay, with their first assignment times |
| Technician.InsertAllUnique | app/app.py:636-640 | the loop never duplicates a pair |
| Technician.OtherIds | app/app.py:625-628 | `usuario_ids or []`: an empty or missing value is no ids, a truthy non-list is refused, and a list gives its items through `to_int_list` |
| Technician.AssignOthers | app/app.py:622-644 | refusals in order (role, bad ids, caller not assigned), each with nothing changed; otherwise the pair set becomes the old set plus the ticket with every listed id, and the other tables are untouched |
| Technician.TargetState | app/app.py:652-656 | the upper-cased target is accepted exactly when it names EN_CURSO, RESUELTO or CANCELADO |
| Technician.MoveTicket | app/app.py:666-673 | the new state; a fresh closure time for RESUELTO and CANCELADO; EN_CURSO keeps the closure time; nothing else changes |
| Technician.ChangeRefusal | app/app.py:655-664 | the checks in order: role, target state, note for RESUELTO, then assignment; no refusal exactly when all pass |
| Technician.ChangeState | app/app.py:649-685 | a refusal exactly when a check fails, with the tables untouched; otherwise an existing ticket is moved as `MoveTicket` says and a non-empty note by the caller is appended once |
| Technician.Move | app/app.py:666-679 | the accepted writes: only the ticket with that id is updated, and the note is appended exactly when non-empty |
| Technician.AddNote | app/app.py:690-704 | any technician, assigned or not; a blank text is refused; otherwise exactly one note by the caller is appended |
| Technician.LastIndexOf | app/app.py:731 | `rfind` answers -1 or a position inside the text |
| Technician.LastIndexOfFacts | app/app.py:731 | `rfind` finds the last occurrence, or -1 when there is none |
| Technician.Extension | app/app.py:731 | the extension `splitext` gives is empty or starts with a dot, and is no longer than the name |
| Technician.ExtensionShape | app/app.py:731 | the extension is a tail of the name that starts with its only dot and holds no slash |
| Technician.ExtensionFound | app/app.py:731 | a last component with a non-dot character before its last dot has an extension: from that dot to the end |
| Technician.LastIndexOfAt | app/app.py:731 | `rfind` finds a character with none of its kind after it |
| Technician.LastIndexOfBelow | app/app.py:731 | with no such character from a position on, `rfind` answers a position before it |
| Technician.EvidenceFiles | app/app.py:727-730 | the loop keeps at most three files, fewer when some are already kept |
| Technician.EvidenceFilesFirstImages | app/app.py:727-730 | the loop keeps the first images, `min(3, images)` of them: it counts accepted files, not files sent |
| Technician.EvidenceAttachments | app/app.py:731-738 | one row per kept file, the i-th named `<stamp>_<start+i>` plus its lower-cased extension |
| Technician.EvidenceRows | app/app.py:727-738 | the rows of an upload: `min(3, images)` of them, the i-th for the i-th image |
| Technician.UploadEvidence | app/app.py:709-744 | refusals in order (role, not assigned, no files, no image), each with nothing changed; otherwise the answer is the number of rows added, 1 to 3, and only `ticket_attachments` changes |
| Lifecycle.ValidWithMoreAssignments | app/app.py:636-640 | adding technician rows without duplicates keeps the invariant |
| Lifecycle.AdmitPreservesValid | app/app.py:346-352 | an accepted ticket keeps the invariant |
| Lifecycle.ValidWithNewTicket | app/app.py:347-350 | appending a PENDIENTE ticket with the next id and no primary keeps the invariant |
| Lifecycle.CreatePreservesValid | app/app.py:298-371 | creating a ticket keeps the invariant |
| Lifecycle.AddSurveyPreservesValid | app/app.py:941-957 | a first survey for an existing ticket, with the next id, keeps the invariant |
| Lifecycle.SubmitSurveyPreservesValid | app/app.py:839-960 | submitting a survey keeps the invariant |
| Lifecycle.ClaimPreservesValid | app/app.py:604-613 | taking a ticket keeps the invariant (the primary technician is one of its technicians) |
| Lifecycle.ValidWithTaken | app/app.py:608-613 | the UPDATE by an assigned technician keeps the invariant |
| Lifecycle.AssignOthersPreservesValid | app/app.py:636-640 | adding colleagues keeps the invariant |
| Lifecycle.ValidWithTicket | app/app.py:666-673 | replacing a ticket by one with the same id and primary, not PENDIENTE, closed only with a closure time, keeps the invariant |
| Lifecycle.ChangeStatePreservesValid | app/app.py:660-681 | changing a ticket's state keeps the invariant |
| Lifecycle.MovePreservesValid | app/app.py:666-679 | the accepted UPDATE and note keep the invariant for any target but PENDIENTE |
| Lifecycle.ValidIgnoresNotes | app/app.py:675-679 | the invariant holds whatever the notes are |
| Lifecycle.NotePreservesValid | app/app.py:697-700 | writing a note keeps the invariant |
| Lifecycle.EvidencePreservesValid | app/app.py:727-738 | uploading evidence keeps the invariant |
| Lifecycle.ClaimIdempotent | app/app.py:604-613 | taking a ticket again changes nothing |
| Lifecycle.FirstClaimerWins | app/app.py:608-613 | after two technicians take a ticket, both are assigned, it is not PENDIENTE, and the primary is the first taker unless it already had one |
| Lifecycle.ResolveNeedsNote | app/app.py:657-658 | RESUELTO without a note is refused with nothing changed; with a note (assigned, existing ticket) the ticket is resolved at `now` and the note appended |
| Lifecycle.TargetStateNames | app/app.py:652-656 | examples: "resuelto" and "En_Curso" are read as their states, and PENDIENTE is refused |
| Lifecycle.ReopenKeepsClosure | app/app.py:666-673 | a resolved ticket moved back to EN_CURSO is open again and keeps its closure time |
| Lifecycle.HasSurveyAfter | app/app.py:941-955 | a stored survey adds exactly its ticket to those that have one |
| Lifecycle.SurveyClearsPending | app/app.py:77-100 | answering a survey takes exactly its ticket off the caller's pending list |
| Lifecycle.LastSurveyUnblocks | app/app.py:328-335 | answering the only pending survey lifts the block on creating tickets |
| Lifecycle.SecondSurveyConflicts | app/app.py:863-866 | a second survey for the same ticket is refused as a conflict, with nothing changed |
| Lifecycle.NoResolvedNoPending | app/app.py:77-100 | with no ticket resolved, nobody owes a survey |
| Lifecycle.AcceptedWhileAllPending | app/app.py:313-344 | while every ticket is PENDIENTE, a complete request under the limit passes every check |
| Lifecycle.AdmitKeepsAllPending | app/app.py:347-350 | an accepted ticket is PENDIENTE, so all tickets stay PENDIENTE |
| Lifecycle.CreateWhileAllPending | app/app.py:313-352 | while every ticket is PENDIENTE, a complete request under the limit is accepted with the next id and raises the caller's count by one |
| Lifecycle.TwoAccepted | app/app.py:318-326 | from empty tables, two complete requests under a limit of two are accepted as tickets 1 and 2 |
| Lifecycle.FirstAccepted | app/app.py:318-352 | from empty tables the first complete request becomes ticket 1, the caller's only one, PENDIENTE |
| Lifecycle.SecondAccepted | app/app.py:318-352 | with one PENDIENTE ticket of the caller's, a second request under a limit of two becomes ticket 2 and the count is 2 |
| Lifecycle.QuotaOfTwo | app/app.py:318-326 | with the default limit of two, a third request is refused with count 2 and limit 2, and nothing changes |
| Lifecycle.RatingsOfExample | app/app.py:898-906 | a rating of 5 is kept, 9 is dropped, and a missing one is absent |
| HelpDesk.Store.constructor | app/app.py:30 | empty tables and the configured `MAX_TOTAL_TICKETS` |
| HelpDesk.Store.CreateTicket | app/app.py:298-371 | the answer and the new tables are those of `Requester.CreateTicket`, and the invariant is kept |
| HelpDesk.Store.StoreTicketImages | app/app.py:354-365 | the loop appends exactly the attachment rows of the images among the first three files, and changes no other table |
| HelpDesk.Store.Claim | app/app.py:600-617 | the answer and the new tables are those of `Technician.Claim`, and the invariant is kept |
| HelpDesk.Store.AssignOthers | app/app.py:622-644 | the answer and the new tables are those of `Technician.AssignOthers`, and the invariant is kept |
| HelpDesk.Store.InsertEach | app/app.py:636-640 | the loop leaves the rows `InsertAll` describes, and changes no other table |
| HelpDesk.Store.ChangeState | app/app.py:649-685 | the answer and the new tables are those of `Technician.ChangeState`, and the invariant is kept |
| HelpDesk.Store.AddNote | app/app.py:690-704 | the answer and the new tables are those of `Technician.AddNote`, and the invariant is kept |
| HelpDesk.Store.UploadEvidence | app/app.py:709-744 | the answer and the new tables are those of `Technician.UploadEvidence`, and the invariant is kept |
| HelpDesk.Store.StoreEvidence | app/app.py:726-738 | the loop, with its break at three, appends exactly the evidence rows, returns how many, and changes no other table |
| HelpDesk.Store.SubmitSurvey | app/app.py:839-960 | the answer and the new tables are those of `Requester.SubmitSurvey`, and the invariant is kept |

## Left out

- Authentication and routing: `login_required`, `role_required`, the session, `login` and `logout`. The caller is a parameter, and a wrong role is the first refusal of each handler. The unauthenticated 401 and the HTML redirects are not modelled.
- MySQL itself. The tables are values or fields; commits and rollbacks are not modelled. `api_crear_ticket` commits the ticket before its attachments. That only matters if the request fails halfway, which the model does not represent.
- Concurrency: two requests interleaving (a double claim, a double survey) are not modelled; requests run one after another.
- File-system writes (`f.save`, `os.makedirs`), the stored path prefix, and `url_for`. An attachment records the ticket and the stored file name; the evidence answer's URL list is not modelled.
- Presentation: `serialize_rows`, the `GROUP_CONCAT` technician names, the `tecnico` and `encuestada` columns of `api_mis_tickets`, and the area name of `api_tecnico_tickets`.
- The packing of the survey answers into `encuestas.descripcion` with `str(extras)`. The survey row keeps every answer as a typed field instead.
- Text handling: `upper`/`lower` are modelled on ASCII letters only. `int()` accepts ASCII digits only, not other Unicode digits.
- JSON input: floating-point numbers are not modelled. `int()` of a float is therefore not covered. A request body that is not a JSON object (which fails with a 500) is not modelled.
- Exceptions of the survey handler (the 500 answer with a rollback) are not modelled. Every refusal the code returns is.
- The order of tickets created in the same second is left to the database. The model keeps their existing order, and its contracts promise only the ordering by creation time.
- A JSON field that is not a string where the code calls a string method on it (for example `"estado": 5` meets `.upper()`) raises and answers 500. The model's text parameters cannot hold such a value.
- Python's limit on `int()` of very long texts (4300 digits by default) is not modelled; `ParseInt` reads texts of any length.
- The database schema is not part of this model. `Claim` and `AssignOthers` insert a `ticket_tecnicos` row for any ticket id and user id they are given, where a schema with foreign keys would make the `INSERT IGNORE` skip a row naming an unknown ticket or user. Ids are unbounded integers.
- Tables.Pairs: keeps its comprehension contract only as a step for the proofs of `IsAssignedRow` and the store; it models no line of its own.
- Technician.Extension: its own contract states only the shape of the tail (empty or starting with a dot); which tail it is, for a name with an extension, is stated by `ExtensionFound`.
- Text.ParseIntOfDigits: the round trip is stated for non-negative integers only. Negative ids and ratings are read the same way, but that direction is not proved.
- Technician.UploadEvidence: `safe_base` (app/app.py:732) is computed and never used, so it is not modelled.
- `api_tickets_total_limit`, `api_tipos_solicitud`, `api_sugerencias`, the session endpoints, the ticket detail and evidence gallery reads, and the page views. These are plain reads or rendering with no lifecycle logic.
- The browser scripts under `app/static/js/` are not part of this model.
