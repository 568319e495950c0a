/**
 * The session record of the application (`st.session_state`, seeded by
 * `_init_state` at app.py:25-40) and the button handlers that change it,
 * each pulled out of its widget as a pure transition. Timestamps and widget
 * values are parameters.
 */
module Session {
  import opened Common
  import CommaList
  import Logs
  import Patients
  import Roster

  // ---------------------------------------------------------------------------
  // Data
  // ---------------------------------------------------------------------------

  /** A profile's own record; both fields are seeded as `None` and nothing in the
      application sets them. */
  datatype Profile = Profile(dob: Option<string>, gender: Option<string>)

  const NewProfile: Profile := Profile(None, None)

  /** A profile's health passport: three lists of items. */
  datatype Passport = Passport(immunizations: seq<string>, allergies: seq<string>, conditions: seq<string>)

  const EmptyPassport: Passport := Passport([], [], [])

  /** One row of a profile's vitals log (app.py:390). */
  datatype VitalsEntry = VitalsEntry(
    date: string,
    time: string,
    systolic: int,
    diastolic: int,
    heartRate: int,
    glucose: int)

  /** One chat message (app.py:479). */
  datatype ChatMessage = ChatMessage(when: string, who: string, msg: string)

  /** Every chat message is posted under this fixed demo identity. */
  const ChatAuthor: string := "Dr. Demo"

  /** The "Primary Use Case" selectbox offers exactly these values (app.py:272). */
  datatype UseCase = ConsumerPilot | HospitalPilot | IntegrationPartner | ResearchCollaboration

  /** One pilot request (app.py:276-282); `created` is the UTC timestamp text. */
  datatype PilotRequest = PilotRequest(org: string, email: string, useCase: UseCase, notes: string, created: string)

  /** The session record. The profile dictionaries are maps keyed by profile
      name; `profileNames` is the key order of the `profiles` dictionary, which
      the profile selectbox lists (app.py:332). */
  datatype SessionState = SessionState(
    activeProfile: string,
    profileNames: seq<string>,
    profiles: map<string, Profile>,
    vitals: map<string, seq<VitalsEntry>>,
    meds: map<string, seq<string>>,
    records: map<string, seq<string>>,
    passport: map<string, Passport>,
    roster: seq<Roster.RosterEntry>,
    patients: seq<Patients.Patient>,
    chat: seq<ChatMessage>,
    pilotRequests: seq<PilotRequest>)

  /** Why a request was refused. */
  datatype SessionError = UnknownProfile(name: string)

  // ---------------------------------------------------------------------------
  // Invariant
  // ---------------------------------------------------------------------------

  predicate Distinct(xs: seq<string>) {
    forall i, j :: 0 <= i < j < |xs| ==> xs[i] != xs[j]
  }

  predicate PassportItems(p: Passport) {
    CommaList.AllItems(p.immunizations) && CommaList.AllItems(p.allergies) && CommaList.AllItems(p.conditions)
  }

  /** What every reachable session satisfies: the five per-profile
      dictionaries have the same keys, the selectbox lists each profile once,
      the active profile exists, stored lists hold only parsed items, and
      patient ids are unique. */
  predicate Valid(s: SessionState) {
    && s.vitals.Keys == s.profiles.Keys
    && s.meds.Keys == s.profiles.Keys
    && s.records.Keys == s.profiles.Keys
    && s.passport.Keys == s.profiles.Keys
    && Distinct(s.profileNames)
    && (forall n :: n in s.profileNames ==> n in s.profiles)
    && (forall n :: n in s.profiles ==> n in s.profileNames)
    && s.activeProfile in s.profiles
    && (forall n :: n in s.meds ==> CommaList.AllItems(s.meds[n]))
    && (forall n :: n in s.passport ==> PassportItems(s.passport[n]))
    && Patients.UniqueIds(s.patients)
  }

  /** The seeded session: one profile "Me", active, with empty sub-records, and
      every log and table empty (app.py:25-40). */
  function Init(): (s: SessionState)
    ensures Valid(s)
    ensures s.activeProfile == "Me" && s.profiles.Keys == {"Me"}
    ensures s.vitals["Me"] == [] && s.meds["Me"] == [] && s.records["Me"] == []
    ensures s.passport["Me"] == EmptyPassport
    ensures s.roster == [] && s.patients == [] && s.chat == [] && s.pilotRequests == []
  {
    SessionState(
      "Me", ["Me"],
      map["Me" := NewProfile],
      map["Me" := []],
      map["Me" := []],
      map["Me" := []],
      map["Me" := EmptyPassport],
      [], [], [], [])
  }

  // ---------------------------------------------------------------------------
  // Family hub: profiles
  // ---------------------------------------------------------------------------

  /** "Add Profile" (app.py:337-343): ignored for an empty or known name;
      otherwise the name gets a fresh profile with an empty vitals log, empty
      medication and record lists and an empty passport, and nothing that
      existed changes. */
  function AddProfile(s: SessionState, name: string): (r: SessionState)
    ensures name == "" || name in s.profiles ==> r == s
    ensures name != "" && name !in s.profiles ==>
      && r.profiles.Keys == s.profiles.Keys + {name}
      && r.profiles[name] == NewProfile
      && name in r.vitals && r.vitals[name] == []
      && name in r.meds && r.meds[name] == []
      && name in r.records && r.records[name] == []
      && name in r.passport && r.passport[name] == EmptyPassport
      && r.profileNames == s.profileNames + [name]
      && r.vitals.Keys == s.vitals.Keys + {name}
      && r.meds.Keys == s.meds.Keys + {name}
      && r.records.Keys == s.records.Keys + {name}
      && r.passport.Keys == s.passport.Keys + {name}
    ensures forall n :: n in s.profiles ==> n in r.profiles && r.profiles[n] == s.profiles[n]
    ensures forall n :: n in s.vitals && n != name ==> n in r.vitals && r.vitals[n] == s.vitals[n]
    ensures forall n :: n in s.meds && n != name ==> n in r.meds && r.meds[n] == s.meds[n]
    ensures forall n :: n in s.records && n != name ==> n in r.records && r.records[n] == s.records[n]
    ensures forall n :: n in s.passport && n != name ==> n in r.passport && r.passport[n] == s.passport[n]
    ensures r.activeProfile == s.activeProfile
    ensures r.roster == s.roster && r.patients == s.patients && r.chat == s.chat && r.pilotRequests == s.pilotRequests
  {
    if name == "" || name in s.profiles then s
    else WithNewProfile(s, name)
  }

  /** The session with `name` registered as a fresh profile. */
  function WithNewProfile(s: SessionState, name: string): (r: SessionState)
    requires name !in s.profiles
    ensures Valid(s) ==> Valid(r)
  {
    var r := s.(
      profileNames := s.profileNames + [name],
      profiles := s.profiles[name := NewProfile],
      vitals := s.vitals[name := []],
      meds := s.meds[name := []],
      records := s.records[name := []],
      passport := s.passport[name := EmptyPassport]);
    assert Valid(s) ==> Valid(r) by {
      if Valid(s) {
        forall i, j | 0 <= i < j < |r.profileNames| ensures r.profileNames[i] != r.profileNames[j] {
          if j == |s.profileNames| {
            assert r.profileNames[i] == s.profileNames[i];
            assert s.profileNames[i] in s.profileNames;
          } else {
            assert r.profileNames[i] == s.profileNames[i] && r.profileNames[j] == s.profileNames[j];
          }
        }
        forall n | n in r.profileNames ensures n in r.profiles {
          if n != name {
            assert n in s.profileNames;
          }
        }
        forall n | n in r.meds ensures CommaList.AllItems(r.meds[n]) {
          if n != name {
            assert r.meds[n] == s.meds[n];
          }
        }
        forall n | n in r.passport ensures PassportItems(r.passport[n]) {
          if n != name {
            assert r.passport[n] == s.passport[n];
          }
        }
      }
    }
    r
  }

  /** Adding a profile a second time changes nothing: it leaves one profile of
      that name and does not reset its records. */
  lemma AddProfileTwice(s: SessionState, name: string)
    ensures AddProfile(AddProfile(s, name), name) == AddProfile(s, name)
  {
  }

  /** The profile selectbox (app.py:332-335): a known name becomes the active
      profile; the selectbox cannot offer any other name, which is refused. */
  function SelectProfile(s: SessionState, choice: string): (r: Result<SessionState, SessionError>)
    ensures r.Success? <==> choice in s.profiles
    ensures r.Success? ==> r.value.activeProfile == choice && r.value.(activeProfile := s.activeProfile) == s
    ensures r.Failure? ==> r.error == UnknownProfile(choice)
  {
    if choice in s.profiles then Success(s.(activeProfile := choice))
    else Failure(UnknownProfile(choice))
  }

  /** `prof_names.index(active_profile)` (app.py:332-333): the first position of
      the active profile in the selectbox list, or `None` where Python would
      raise `ValueError`; a valid session always has one. */
  method ActiveIndex(s: SessionState) returns (r: Option<nat>)
    ensures r.Some? <==> s.activeProfile in s.profileNames
    ensures r.Some? ==> r.value < |s.profileNames| && s.profileNames[r.value] == s.activeProfile
    ensures r.Some? ==> forall k :: 0 <= k < r.value ==> s.profileNames[k] != s.activeProfile
    ensures Valid(s) ==> r.Some?
  {
    var names := s.profileNames;
    var i := 0;
    while i < |names|
      invariant 0 <= i <= |names|
      invariant forall k :: 0 <= k < i ==> names[k] != s.activeProfile
    {
      if names[i] == s.activeProfile {
        return Some(i);
      }
      i := i + 1;
    }
    return None;
  }

  // ---------------------------------------------------------------------------
  // Health passport and medication list
  // ---------------------------------------------------------------------------

  /** The texts the three passport boxes are prefilled with (app.py:348-350). */
  datatype PassportText = PassportText(immunizations: string, allergies: string, conditions: string)

  /** The texts the passport form is prefilled with: each stored list,
      `", "`-joined. */
  function PassportPrefill(s: SessionState): PassportText
    requires s.activeProfile in s.passport
  {
    var p := s.passport[s.activeProfile];
    PassportText(CommaList.Join(p.immunizations), CommaList.Join(p.allergies), CommaList.Join(p.conditions))
  }

  /** Each prefilled passport box parses back to the list it shows. */
  lemma PassportPrefillParsesBack(s: SessionState)
    requires s.activeProfile in s.passport && PassportItems(s.passport[s.activeProfile])
    ensures ParsedPassport(PassportPrefill(s)) == s.passport[s.activeProfile]
  {
    var p := s.passport[s.activeProfile];
    CommaList.ParseJoin(p.immunizations);
    CommaList.ParseJoin(p.allergies);
    CommaList.ParseJoin(p.conditions);
  }

  /** "Update Passport" (app.py:351-356): the active profile's passport becomes
      the three parsed lists, whatever it held before; no other profile and
      no other part of the session changes. */
  function UpdatePassport(s: SessionState, text: PassportText): (r: SessionState)
    ensures s.activeProfile in r.passport
    ensures r.passport[s.activeProfile] == ParsedPassport(text)
    ensures r.passport.Keys == s.passport.Keys + {s.activeProfile}
    ensures forall n :: n in s.passport && n != s.activeProfile ==> r.passport[n] == s.passport[n]
    ensures r.(passport := s.passport) == s
  {
    var p := ParsedPassport(text);
    var r := s.(passport := s.passport[s.activeProfile := p]);
    assert r.passport[s.activeProfile] == p;
    assert r.passport.Keys == s.passport.Keys + {s.activeProfile};
    assert r.(passport := s.passport) == s;
    r
  }

  /** The three parsed lists of the passport form. */
  function ParsedPassport(text: PassportText): Passport
  {
    Passport(
      CommaList.Parse(text.immunizations),
      CommaList.Parse(text.allergies),
      CommaList.Parse(text.conditions))
  }

  /** The update replaces rather than merges: updating twice is the same as
      updating once with the second texts ("A, B" then "C" leaves ["C"]). */
  lemma UpdatePassportReplaces(s: SessionState, first: PassportText, second: PassportText)
    ensures UpdatePassport(UpdatePassport(s, first), second) == UpdatePassport(s, second)
  {
    var t := UpdatePassport(s, first);
    UpdatePassportShape(s, first);
    UpdatePassportShape(s, second);
    UpdatePassportShape(t, second);
    MapOverwrite(s.passport, s.activeProfile, ParsedPassport(first), ParsedPassport(second));
  }

  /** Writing a key twice keeps only the second value. */
  lemma MapOverwrite<K, V>(m: map<K, V>, k: K, a: V, b: V)
    ensures m[k := a][k := b] == m[k := b]
  {
  }

  /** The session after "Update Passport", as one expression. */
  lemma UpdatePassportShape(s: SessionState, text: PassportText)
    ensures UpdatePassport(s, text) == s.(passport := s.passport[s.activeProfile := ParsedPassport(text)])
  {
  }

  /** Pressing "Update Passport" on the unchanged prefilled form leaves the
      session as it was. */
  lemma {:induction false} SavingPrefilledPassportIsNoop(s: SessionState)
    requires Valid(s)
    ensures UpdatePassport(s, PassportPrefill(s)) == s
  {
    UpdatePassportShape(s, PassportPrefill(s));
    PassportPrefillParsesBack(s);
    MapSameValue(s.passport, s.activeProfile);
  }

  /** Writing a key's own value back changes nothing. */
  lemma MapSameValue<K, V>(m: map<K, V>, k: K)
    requires k in m
    ensures m[k := m[k]] == m
  {
  }

  /** The exported passport document `{profile, immunizations, allergies,
      conditions}` (app.py:358-361), without its JSON rendering. */
  datatype PassportExport = PassportExport(profile: string, immunizations: seq<string>, allergies: seq<string>, conditions: seq<string>)

  /** Exports the active profile's passport, naming the profile. */
  function ExportPassport(s: SessionState): (r: PassportExport)
    requires s.activeProfile in s.passport
    ensures r.profile == s.activeProfile
    ensures Passport(r.immunizations, r.allergies, r.conditions) == s.passport[s.activeProfile]
  {
    var p := s.passport[s.activeProfile];
    PassportExport(s.activeProfile, p.immunizations, p.allergies, p.conditions)
  }

  /** A freshly added and selected profile exports an empty passport under its
      own name. */
  lemma NewProfileExportsEmptyPassport(s: SessionState, name: string)
    requires Valid(s) && name != "" && name !in s.profiles
    ensures var t := AddProfile(s, name);
      SelectProfile(t, name).Success?
      && ExportPassport(SelectProfile(t, name).value) == PassportExport(name, [], [], [])
  {
  }

  /** The text the medication box is prefilled with (app.py:366): the stored
      list, `", "`-joined. */
  function MedsPrefill(s: SessionState): string
    requires s.activeProfile in s.meds
  {
    CommaList.Join(s.meds[s.activeProfile])
  }

  /** The prefilled medication box parses back to the list it shows. */
  lemma MedsPrefillParsesBack(s: SessionState)
    requires s.activeProfile in s.meds && CommaList.AllItems(s.meds[s.activeProfile])
    ensures CommaList.Parse(MedsPrefill(s)) == s.meds[s.activeProfile]
  {
    CommaList.ParseJoin(s.meds[s.activeProfile]);
  }

  /** "Save Med List" (app.py:367-368): the active profile's medication list
      becomes the parsed text, whatever it held before; nothing else changes. */
  function SaveMeds(s: SessionState, text: string): (r: SessionState)
    ensures s.activeProfile in r.meds && r.meds[s.activeProfile] == CommaList.Parse(text)
    ensures r.meds.Keys == s.meds.Keys + {s.activeProfile}
    ensures forall n :: n in s.meds && n != s.activeProfile ==> r.meds[n] == s.meds[n]
    ensures r.(meds := s.meds) == s
  {
    s.(meds := s.meds[s.activeProfile := CommaList.Parse(text)])
  }

  /** Pressing "Save Med List" on the unchanged prefilled box leaves the
      session as it was. */
  lemma SavingPrefilledMedsIsNoop(s: SessionState)
    requires Valid(s)
    ensures SaveMeds(s, MedsPrefill(s)) == s
  {
    MedsPrefillParsesBack(s);
    MapSameValue(s.meds, s.activeProfile);
  }

  // ---------------------------------------------------------------------------
  // Vitals
  // ---------------------------------------------------------------------------

  /** "Add Entry" (app.py:386-391): the entry goes at the end of the active
      profile's log; earlier entries, other profiles and the rest of the
      session are untouched. The handler checks no range itself. */
  function AddVitals(s: SessionState, e: VitalsEntry): (r: SessionState)
    requires s.activeProfile in s.vitals
    ensures r.vitals.Keys == s.vitals.Keys
    ensures s.vitals[s.activeProfile] <= r.vitals[s.activeProfile]
    ensures |r.vitals[s.activeProfile]| == |s.vitals[s.activeProfile]| + 1
    ensures r.vitals[s.activeProfile][|s.vitals[s.activeProfile]|] == e
    ensures forall n :: n in s.vitals && n != s.activeProfile ==> r.vitals[n] == s.vitals[n]
    ensures r.(vitals := s.vitals) == s
  {
    s.(vitals := s.vitals[s.activeProfile := Logs.Append(s.vitals[s.activeProfile], e)])
  }

  /** The vitals table shows this many of the newest entries. */
  const VitalsWindow: nat := 6

  /** What the vitals panel shows (app.py:394-398). */
  datatype VitalsPanel = NoVitalsYet | VitalsTable(rows: seq<VitalsEntry>)

  /** The placeholder exactly when the log is empty; otherwise the newest
      `min(6, n)` entries in insertion order. */
  function VitalsView(s: SessionState): (r: VitalsPanel)
    requires s.activeProfile in s.vitals
    ensures r.NoVitalsYet? <==> s.vitals[s.activeProfile] == []
    ensures r.VitalsTable? ==>
      var log := s.vitals[s.activeProfile];
      |r.rows| == Min(VitalsWindow, |log|) && log == log[..|log| - |r.rows|] + r.rows
  {
    var log := s.vitals[s.activeProfile];
    if log == [] then NoVitalsYet else VitalsTable(Logs.Tail(log, VitalsWindow))
  }

  /** A freshly added and selected profile shows exactly its first vitals
      entry. */
  lemma FirstVitalsOfNewProfile(s: SessionState, name: string, e: VitalsEntry)
    requires Valid(s) && name != "" && name !in s.profiles
    ensures var t := SelectProfile(AddProfile(s, name), name);
      t.Success? && VitalsView(AddVitals(t.value, e)) == VitalsTable([e])
  {
    var t := SelectProfile(AddProfile(s, name), name).value;
    var u := AddVitals(t, e);
    assert u.vitals[name] == [e];
    assert Logs.Tail([e], VitalsWindow) == [e];
  }

  // ---------------------------------------------------------------------------
  // Hospital side
  // ---------------------------------------------------------------------------

  /** "Add / Update Patient" (app.py:442-445): the submitted row ends the table
      and is the only one with its id; every old row with another id is kept,
      in order, before it; nothing else in the session changes. */
  function UpsertPatient(s: SessionState, p: Patients.Patient): (r: SessionState)
    ensures |r.patients| >= 1 && r.patients[|r.patients| - 1] == p
    ensures Patients.RowsWithId(r.patients, p.id) == [p]
    ensures r.patients[..|r.patients| - 1] == Patients.WithoutId(s.patients, p.id)
    ensures Patients.UniqueIds(s.patients) ==> Patients.UniqueIds(r.patients)
    ensures r.(patients := s.patients) == s
  {
    Patients.UpsertLookup(s.patients, p, p.id);
    s.(patients := Patients.Upsert(s.patients, p))
  }

  /** "Add to Roster" (app.py:455-459): one entry more, at the end. */
  function AddRosterEntry(s: SessionState, date: string, shift: Roster.Shift, doctor: string): (r: SessionState)
    ensures s.roster <= r.roster && |r.roster| == |s.roster| + 1
    ensures r.roster[|s.roster|] == Roster.RosterEntry(date, shift, doctor)
    ensures r.(roster := s.roster) == s
  {
    s.(roster := Roster.AddEntry(s.roster, Roster.RosterEntry(date, shift, doctor)))
  }

  /** The displayed roster (app.py:461): the stored entries, each as often as
      stored, ordered by `(date, shift)` text; the session is not changed. */
  function RosterView(s: SessionState): (r: seq<Roster.RosterEntry>)
    ensures Roster.SortedByKey(r)
    ensures multiset(r) == multiset(s.roster)
  {
    Roster.SortByKey(s.roster)
  }

  /** The e-prescription shown by "Generate Rx" (app.py:469-471). */
  datatype Prescription = Prescription(patient: string, meds: seq<string>, instructions: string)

  /** "Generate Rx": the drug list is the parsed text; the session is not
      involved. */
  function GenerateRx(patient: string, drugs: string, instructions: string): (r: Prescription)
    ensures r.patient == patient && r.instructions == instructions
    ensures r.meds == CommaList.Parse(drugs)
    ensures CommaList.AllItems(r.meds)
    ensures forall xs :: CommaList.AllItems(xs) && drugs == CommaList.Join(xs) ==> r.meds == xs
  {
    forall xs | CommaList.AllItems(xs) && drugs == CommaList.Join(xs) ensures CommaList.Parse(drugs) == xs {
      CommaList.ParseJoin(xs);
    }
    Prescription(patient, CommaList.Parse(drugs), instructions)
  }

  /** "Send" (app.py:477-479): a non-empty message is appended under the demo
      identity; an empty one is ignored. */
  function SendChat(s: SessionState, when: string, msg: string): (r: SessionState)
    ensures msg == "" ==> r == s
    ensures msg != "" ==>
      s.chat <= r.chat && |r.chat| == |s.chat| + 1 && r.chat[|s.chat|] == ChatMessage(when, ChatAuthor, msg)
    ensures r.(chat := s.chat) == s
  {
    if msg == "" then s else s.(chat := Logs.Append(s.chat, ChatMessage(when, ChatAuthor, msg)))
  }

  /** "Request Pilot" (app.py:275-282): every submission is appended, even with
      empty fields. */
  function SubmitPilot(s: SessionState, req: PilotRequest): (r: SessionState)
    ensures s.pilotRequests <= r.pilotRequests && |r.pilotRequests| == |s.pilotRequests| + 1
    ensures r.pilotRequests[|s.pilotRequests|] == req
    ensures r.(pilotRequests := s.pilotRequests) == s
  {
    s.(pilotRequests := Logs.Append(s.pilotRequests, req))
  }

  /** The pilot requests table shows this many of the newest requests. */
  const PilotWindow: nat := 5

  /** The "Recent Pilot Requests" table (app.py:285-287): the newest
      `min(5, n)` requests in insertion order, nothing when there are none. */
  function PilotView(s: SessionState): (r: seq<PilotRequest>)
    ensures |r| == Min(PilotWindow, |s.pilotRequests|)
    ensures s.pilotRequests == s.pilotRequests[..|s.pilotRequests| - |r|] + r
  {
    Logs.Tail(s.pilotRequests, PilotWindow)
  }
}
