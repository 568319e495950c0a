# Viatra session store — a Dafny model

Viatra is a single-file Streamlit demo (`app.py`) with a consumer side
(a family hub of named profiles, each with a vitals log, a medication list,
a record list and a health passport) and a hospital side (a patient
registry, a duty roster, an e-prescription form and a chat), plus a
"Request a Pilot" form on its landing page. All of its data lives in one
in-memory session record, `st.session_state`, and every button handler
changes that record in one step.

This project takes the handlers out of their widgets and models them as pure
transitions over an immutable `SessionState`. It then proves what the
handlers promise about the data.

| file | module | what it models |
|---|---|---|
| `common.dfy` | `Common` | `Option`, `Result`, `Min` |
| `comma_list.dfy` | `CommaList` | `[x.strip() for x in text.split(",") if x.strip()]` and `", ".join(items)` |
| `logs.dfy` | `Logs` | append-only logs and their `tail(n)` views |
| `patients.dfy` | `Patients` | the patient registry and its upsert by id |
| `roster.dfy` | `Roster` | the roster, Python string order, and `sort_values(by=["date","shift"])` |
| `session.dfy` | `Session` | the session record, `_init_state`, and every handler |
| `actions.dfy` | `Actions` | the session as a state machine: one step per button press, and runs of steps |

Main results:

- **Comma-list codec.** Splitting on `","` and joining with `","` are inverse
  to each other. A parse yields only non-empty, stripped, comma-free items, in
  the order they appear in the text. Parsing the `", "`-join of such a list
  gives the list back. So pressing "Update Passport" or "Save Med List" on the
  unchanged prefilled form leaves the session exactly as it was.
- **Profiles.** Adding a profile is a no-op for an empty or already known
  name. Otherwise it creates empty sub-records and changes nothing that
  existed. `Valid` is the session invariant. It says that `profiles`,
  `vitals`, `meds`, `records` and `passport` share one key set, that the
  active profile is one of those keys, that stored lists hold only parsed
  items, and that patient ids are unique. Every handler keeps it, and so
  does every run of handlers.
- **Replacement.** Saving the passport or the medication list replaces the
  active profile's lists. It does not merge them, and nothing else changes.
- **Logs.** Vitals, roster, chat and pilot requests only grow, and only at
  the end. A `tail(n)` view is the last `min(n, len)` entries in insertion
  order.
- **Patient upsert.** After an upsert of id `pid`, exactly one row has `pid`.
  That row is last and carries the new values. Every other id finds the same
  rows, in the same order, as before. Unique ids stay unique, and the upsert
  is idempotent.
- **Roster view.** The displayed roster is a permutation of the stored one,
  sorted by `(date, shift)` compared as strings. On one date this puts
  "Evening" before "Morning" before "Night". The stored order is untouched.

Three facts about the code shape the model:

- No handler checks a range. The bounds on vitals, age and sex exist only as
  widget limits (app.py:379-385, app.py:435-437), so no operation here
  refuses a value. Sex, shift and use case are enumerations only because
  their selectboxes offer nothing else (app.py:272, app.py:437, app.py:453).
- The roster sort compares shift labels as strings (app.py:461), so on one
  date the order is Evening, Morning, Night. `Roster.KeyLe` compares the
  same way, and `Roster.ShiftLabelOrder` and `Roster.SortedViewOrder`
  state the resulting order.
- The profile selectbox offers only the keys of `profiles` (app.py:332-333).
  `Session.SelectProfile` still refuses any other name with
  `UnknownProfile`, a path the code cannot reach.

Timestamps (`datetime.utcnow()`, `datetime.now()`, `rdate.isoformat()`) and
every widget value are parameters of the handlers.

## Model

| member | source | states |
|---|---|---|
| `CommaList.TrimLeft` | app.py:353 | the leading half of `x.strip()`: the result is a suffix of `x`, every removed character is whitespace, and the result does not start with whitespace |
| `CommaList.TrimRight` | app.py:353 | the trailing half of `x.strip()`: the result is a prefix of `x`, every removed character is whitespace, and the result does not end with whitespace |
| `CommaList.Strip` | app.py:353-355 | `x.strip()` neither starts nor ends with whitespace, adds no comma, is empty exactly when the fragment is all whitespace, and leaves an already stripped string unchanged |
| `CommaList.StripIsPadded` | app.py:353-355 | `x.strip()` is `x` without its leading and trailing whitespace: a contiguous piece of `x` with only whitespace before it and only whitespace after it |
| `CommaList.Split` | app.py:353 | `text.split(",")` yields at least one fragment, no fragment contains a comma, and there are at most `len(text) + 1` fragments |
| `CommaList.JoinSplit` | app.py:353 | joining the fragments of `text.split(",")` with `","` rebuilds the text exactly |
| `CommaList.SplitJoin` | app.py:353 | splitting the `","`-join of a non-empty list of comma-free fragments gives back that list |
| `CommaList.JoinWith` | app.py:348-350 | `sep.join(xs)` is empty for no strings and the string itself for one; otherwise it starts with the first string, directly followed by the separator |
| `CommaList.Join` | app.py:366 | the `", "`-join starts with the first item, followed by `", "` when there are more; for a list of items it is empty exactly when the list is |
| `CommaList.SplitAtComma` | app.py:353 | the fragments of `a + "," + b` are the fragments of `a` followed by those of `b` |
| `CommaList.Clean` | app.py:353-355 | keeping the non-empty stripped fragments gives at most one item per fragment; each item is non-empty and stripped, and is comma-free when the fragments are |
| `CommaList.Parse` | app.py:353-355 | every parsed item is non-empty, stripped and comma-free |
| `CommaList.CleanMembers` | app.py:368 | a string is a parsed item exactly when it is non-empty and is the stripped form of some fragment |
| `CommaList.ParseAtComma` | app.py:470 | items come out in the order they appear: the text before a comma contributes its items before the text after it |
| `CommaList.ParseCommaFree` | app.py:353-355 | text without a comma is one fragment, so it parses to its stripped form, or to nothing when that is empty |
| `CommaList.ParseSpacePrefix` | app.py:368 | whitespace in front of the text does not change the parsed items |
| `CommaList.ParseTwoAroundBlank` | app.py:368 | `" x ,<blanks>, y"` parses to `[x, y]`: the blank middle fragment is dropped and both items are trimmed |
| `CommaList.ParseJoin` | app.py:348-356 | round trip: for a list of non-empty, stripped, comma-free items, parsing its `", "`-join gives the list back |
| `CommaList.ParseIdempotent` | app.py:366-368 | parsing, prefilling with `", "`, and parsing again gives the same list |
| `Logs.Tail` | app.py:395-398 | `tail(n)` is exactly the last `min(n, len)` entries, in insertion order |
| `Logs.TailOfEmpty` | app.py:285-287 | the view of an empty log is empty |
| `Logs.TailCoversShortLog` | app.py:398 | a window at least as long as the log shows the whole log |
| `Logs.TailAfterAppend` | app.py:386-398 | after an append, the `n`-window is the previous `n - 1` newest entries followed by the new one |
| `Logs.Append` | app.py:388-391 | appending keeps the old log as a prefix and puts the new entry last |
| `Patients.WithoutId` | app.py:444 | `df[df["id"] != pid]` keeps exactly the rows with another id, and keeps unique ids unique |
| `Patients.RowsWithId` | app.py:443-445 | the observer used to state the upsert's "exactly one row has id == pid": the rows carrying a given id are exactly the table's rows with that id |
| `Patients.Upsert` | app.py:442-445 | the new row is last and is the only row with its id; the rows before it are the old rows with another id, in their old order; unique ids stay unique |
| `Patients.WithoutIdAppend` | app.py:444 | dropping an id distributes over concatenation, so the surviving rows keep their relative order |
| `Patients.WithoutAbsentId` | app.py:444 | dropping an id that no row carries leaves the table unchanged |
| `Patients.UpsertLookup` | app.py:443-445 | after an upsert, looking up the upserted id finds only the new row, and every other id finds exactly the rows it found before |
| `Patients.UpsertIdempotent` | app.py:443-445 | submitting the same row twice gives the same table as submitting it once |
| `Patients.UpsertTwiceSameId` | app.py:443-445 | re-submitting an id with new values leaves one row for it, carrying the second values, after the old rows with other ids |
| `Roster.LexLeTotal` | app.py:461 | Python string comparison is total |
| `Roster.LexLeTransitive` | app.py:461 | Python string comparison is transitive |
| `Roster.LexLeAntisymmetric` | app.py:461 | two strings that compare both ways are equal |
| `Roster.KeyLeTotal` | app.py:461 | any two roster rows are ordered one way or the other by `(date, shift)` |
| `Roster.KeyLeTransitive` | app.py:461 | the `(date, shift)` order is transitive |
| `Roster.ShiftLabelOrder` | app.py:453-461 | on one date, sorting the labels as strings puts Evening before Morning and Morning before Night, and never the reverse |
| `Roster.Insert` | app.py:461 | inserting into a sorted roster keeps it sorted and adds exactly that entry |
| `Roster.SortByKey` | app.py:461 | the sorted view is sorted by `(date, shift)` and is a permutation of the roster |
| `Roster.SortedViewOrder` | app.py:461 | in the view, a row with an earlier date comes first; on one date an Evening row comes before a Morning row, and a Morning row before a Night row |
| `Roster.AddEntry` | app.py:455-459 | one entry more, at the end; earlier entries unchanged |
| `Session.Init` | app.py:25-40 | the seeded session is valid; "Me" is the only profile and is active; its sub-records are empty, its passport has three empty lists, and every log and table is empty |
| `Session.AddProfile` | app.py:337-343 | a no-op for an empty or known name; otherwise it adds the name, and only the name, to the key set of each of the five profile dictionaries, with a fresh profile, an empty vitals log, empty meds and records, and an empty passport, and appends it to the selectbox list; existing profiles and the rest of the session are unchanged |
| `Session.WithNewProfile` | app.py:339-343 | registering a fresh name keeps the session invariant (equal key sets, a distinct selectbox list, an existing active profile) |
| `Session.AddProfileTwice` | app.py:338 | adding the same profile twice equals adding it once, so its records are not reset |
| `Session.SelectProfile` | app.py:332-335 | a known name becomes the active profile and nothing else changes; any other name is refused with `UnknownProfile` |
| `Session.ActiveIndex` | app.py:332-333 | `prof_names.index(active_profile)` finds the first position of the active profile, or reports its absence; in a valid session it is always found |
| `Session.PassportPrefillParsesBack` | app.py:348-356 | each prefilled passport box, parsed as "Update Passport" parses it, gives back the stored list it shows |
| `Session.UpdatePassport` | app.py:351-356 | the active profile's passport becomes the three parsed lists (`ParsedPassport`), whatever it held before; the passport keys gain at most the active profile; other profiles and the rest of the session are unchanged |
| `Session.UpdatePassportReplaces` | app.py:351-356 | updating twice equals updating once with the second texts, so lists are replaced and never merged |
| `Session.SavingPrefilledPassportIsNoop` | app.py:348-356 | pressing "Update Passport" on the unchanged prefilled form leaves the session unchanged |
| `Session.ExportPassport` | app.py:358-361 | the exported document names the active profile and carries exactly its three passport lists |
| `Session.NewProfileExportsEmptyPassport` | app.py:338-361 | a newly added and selected profile exports `{profile: name, [], [], []}` |
| `Session.MedsPrefillParsesBack` | app.py:366-368 | the prefilled medication text, parsed as "Save Med List" parses it, gives back the stored list |
| `Session.SaveMeds` | app.py:367-368 | the active profile's medication list becomes the parsed text; other profiles and the rest of the session are unchanged |
| `Session.SavingPrefilledMedsIsNoop` | app.py:366-368 | pressing "Save Med List" on the unchanged prefilled text leaves the session unchanged |
| `Session.AddVitals` | app.py:386-391 | the entry is appended at the end of the active profile's log; earlier entries, other profiles and the rest of the session are unchanged; no range is checked |
| `Session.VitalsView` | app.py:394-398 | the panel shows the placeholder exactly when the log is empty; otherwise it shows the newest `min(6, n)` entries in insertion order |
| `Session.FirstVitalsOfNewProfile` | app.py:337-398 | a newly added and selected profile with one logged entry shows exactly that entry |
| `Session.UpsertPatient` | app.py:442-445 | the submitted row ends the registry and is the only row with its id; the rows before it are exactly the old rows with another id, in their old order; unique ids stay unique; the rest of the session is unchanged |
| `Session.AddRosterEntry` | app.py:455-459 | the roster grows by exactly the new entry at the end; the rest of the session is unchanged |
| `Session.RosterView` | app.py:461 | the displayed roster is sorted by `(date, shift)` and is a permutation of the stored roster; the session is not changed |
| `Session.GenerateRx` | app.py:469-471 | the prescription keeps the patient name and instructions; its drug list is the comma-list parse of the drug text, so it holds only non-empty stripped items in text order, and the `", "`-join of an item list gives back that list |
| `Session.SendChat` | app.py:477-479 | an empty message changes nothing; a non-empty one is appended at the end under "Dr. Demo"; nothing else changes |
| `Session.SubmitPilot` | app.py:275-282 | every submission is appended at the end, and nothing else changes |
| `Session.PilotView` | app.py:285-287 | the table shows the newest `min(5, n)` requests in insertion order, and nothing when there are none |
| `Actions.AddProfileKeepsValid` | app.py:337-343 | adding a profile keeps the invariant and only extends the session |
| `Actions.UpdatePassportKeepsValid` | app.py:351-356 | updating the passport keeps the invariant |
| `Actions.SaveMedsKeepsValid` | app.py:367-368 | saving medications keeps the invariant |
| `Actions.AddVitalsKeepsValid` | app.py:386-391 | logging vitals keeps the invariant, and every profile's log only grows |
| `Actions.UpsertPatientKeepsValid` | app.py:442-445 | an upsert keeps the invariant; in particular patient ids stay unique |
| `Actions.GrowsTransitive` | app.py:388-391 | growth of profiles and logs composes over successive interactions |
| `Actions.Step` | app.py:332-479 | each interaction keeps the invariant; profiles are never removed or changed; the selectbox list, vitals logs, roster, chat and pilot requests only grow at the end |
| `Actions.Run` | app.py:27-38 | any sequence of interactions keeps the invariant and only extends the session; the active profile always exists |
| `Actions.MeIsNeverLost` | app.py:27-38 | from the seeded session, whatever happens, "Me" keeps its untouched profile record and is still a key of profiles, vitals, meds, records and passport, and the active profile exists |

## Left out

- Page layout, CSS, `render_card` and the landing-page cards (app.py:48-265, app.py:288-321) are presentation only.
- The JSON rendering and the download buttons (app.py:318-319, app.py:358-362) are left out. The passport export is modelled as a record.
- `datetime.utcnow()`, `datetime.now()` and `date.today()` are left out. Their values are parameters.
- The matplotlib chart and its synthetic appointment series (app.py:484-492) are left out. They hold no session data.
- Tables are sequences of records, not pandas DataFrames. The two column layouts of the vitals frame (`datetime` when seeded, `date`/`time` when appended) are not modelled.
- The tie order of roster rows with equal `(date, shift)` is not stated. `Roster.SortByKey` only promises a sorted permutation.
- Widget bounds on vitals, age and sex are not modelled. Only the widgets enforce them.
- The `challenges` map is seeded for "Me" only and is never extended. The `notes`, `micro_consults` and `lab_text` entries, and the "Interpret" button, hold no data that another handler reads. All are left out.
- The chat table shows the whole chat log. It needs no view beyond the log itself.
- `profiles` values (`dob`, `gender`) are always `None`. They are kept only as `Profile(None, None)`.
- CommaList.Strip: its own contract does not pin the result down; `CommaList.StripIsPadded` states it exactly, as a lemma, because as a postcondition it made every proof that parses text much more expensive.
- CommaList.Strip: removes only ASCII whitespace (space, tab, line feed, carriage return, vertical tab, form feed, and U+001C to U+001F). Python's `str.strip()` also removes non-ASCII whitespace such as U+0085, U+00A0 and U+3000.
