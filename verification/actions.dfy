/**
 * The session as a state machine: every rerun of the script handles at most
 * one button press, so a session's history is the seeded state followed by a
 * sequence of the handlers' transitions. Each transition keeps the session
 * invariant and only ever extends the profiles and the append-only logs.
 */
module Actions {
  import opened Session
  import CommaList
  import Patients
  import Roster

  /** One user interaction that changes the session. */
  datatype Action =
    | AddProfileClicked(name: string)
    | ProfileSelected(choice: string)
    | PassportSaved(text: PassportText)
    | MedsSaved(meds: string)
    | VitalsLogged(entry: VitalsEntry)
    | PatientSubmitted(patient: Patients.Patient)
    | RosterAdded(date: string, shift: Roster.Shift, doctor: string)
    | ChatSent(when: string, msg: string)
    | PilotRequested(request: PilotRequest)

  /** `t` extends `s`: no profile disappears or changes, the selectbox list only
      grows at the end, and the vitals logs, roster, chat and pilot requests
      only grow at the end. */
  predicate Grows(s: SessionState, t: SessionState) {
    && s.profileNames <= t.profileNames
    && (forall n :: n in s.profiles ==> n in t.profiles && t.profiles[n] == s.profiles[n])
    && (forall n :: n in s.vitals ==> n in t.vitals && s.vitals[n] <= t.vitals[n])
    && s.roster <= t.roster
    && s.chat <= t.chat
    && s.pilotRequests <= t.pilotRequests
  }

  lemma GrowsTransitive(s: SessionState, t: SessionState, u: SessionState)
    requires Grows(s, t) && Grows(t, u)
    ensures Grows(s, u)
  {
    forall n | n in s.vitals ensures n in u.vitals && s.vitals[n] <= u.vitals[n] {
      PrefixTransitive(s.vitals[n], t.vitals[n], u.vitals[n]);
    }
    PrefixTransitive(s.profileNames, t.profileNames, u.profileNames);
    PrefixTransitive(s.roster, t.roster, u.roster);
    PrefixTransitive(s.chat, t.chat, u.chat);
    PrefixTransitive(s.pilotRequests, t.pilotRequests, u.pilotRequests);
  }

  lemma PrefixTransitive<T>(a: seq<T>, b: seq<T>, c: seq<T>)
    requires a <= b && b <= c
    ensures a <= c
  {
    assert a == b[..|a|];
    assert b == c[..|b|];
    assert c[..|b|][..|a|] == c[..|a|];
  }

  // ---------------------------------------------------------------------------
  // Each handler keeps the invariant
  // ---------------------------------------------------------------------------

  lemma AddProfileKeepsValid(s: SessionState, name: string)
    requires Valid(s)
    ensures Valid(AddProfile(s, name)) && Grows(s, AddProfile(s, name))
  {
  }

  lemma UpdatePassportKeepsValid(s: SessionState, text: PassportText)
    requires Valid(s)
    ensures Valid(UpdatePassport(s, text))
  {
    UpdatePassportShape(s, text);
    var p := ParsedPassport(text);
    assert PassportItems(p);
    WithActivePassportKeepsValid(s, p);
  }

  /** Storing a passport of parsed items for the active profile keeps the
      invariant. */
  lemma WithActivePassportKeepsValid(s: SessionState, p: Passport)
    requires Valid(s) && PassportItems(p)
    ensures Valid(s.(passport := s.passport[s.activeProfile := p]))
  {
    var r := s.(passport := s.passport[s.activeProfile := p]);
    forall n | n in r.passport ensures PassportItems(r.passport[n]) {
      if n != s.activeProfile {
        assert r.passport[n] == s.passport[n];
      }
    }
  }

  lemma SaveMedsKeepsValid(s: SessionState, text: string)
    requires Valid(s)
    ensures Valid(SaveMeds(s, text))
  {
    var r := SaveMeds(s, text);
    forall n | n in r.meds ensures CommaList.AllItems(r.meds[n]) {
      if n != s.activeProfile {
        assert r.meds[n] == s.meds[n];
      }
    }
  }

  lemma AddVitalsKeepsValid(s: SessionState, e: VitalsEntry)
    requires Valid(s)
    ensures Valid(AddVitals(s, e)) && Grows(s, AddVitals(s, e))
  {
    var r := AddVitals(s, e);
    forall n | n in s.vitals ensures n in r.vitals && s.vitals[n] <= r.vitals[n] {
      if n != s.activeProfile {
        assert r.vitals[n] == s.vitals[n];
      }
    }
  }

  lemma UpsertPatientKeepsValid(s: SessionState, p: Patients.Patient)
    requires Valid(s)
    ensures Valid(UpsertPatient(s, p))
  {
    assert UpsertPatient(s, p).patients == Patients.Upsert(s.patients, p);
  }

  /** Growing the roster, chat or pilot requests at the end and changing
      nothing else keeps the invariant. */
  lemma LogAppendKeepsValid(s: SessionState, r: SessionState)
    requires Valid(s)
    requires s.roster <= r.roster && s.chat <= r.chat && s.pilotRequests <= r.pilotRequests
    requires r.(roster := s.roster, chat := s.chat, pilotRequests := s.pilotRequests) == s
    ensures Valid(r) && Grows(s, r)
  {
    assert r.profiles == s.profiles && r.vitals == s.vitals;
    assert s.profileNames <= r.profileNames;
  }

  // ---------------------------------------------------------------------------
  // Transitions
  // ---------------------------------------------------------------------------

  /** Handles one interaction; a refused selection leaves the session as it was. */
  function Step(s: SessionState, a: Action): (r: SessionState)
    requires Valid(s)
    ensures Valid(r) && Grows(s, r)
  {
    match a
    case AddProfileClicked(name) =>
      AddProfileKeepsValid(s, name);
      AddProfile(s, name)
    case ProfileSelected(choice) =>
      (match SelectProfile(s, choice)
       case Success(t) => t
       case Failure(_) => s)
    case PassportSaved(text) =>
      UpdatePassportKeepsValid(s, text);
      UpdatePassport(s, text)
    case MedsSaved(text) =>
      SaveMedsKeepsValid(s, text);
      SaveMeds(s, text)
    case VitalsLogged(e) =>
      AddVitalsKeepsValid(s, e);
      AddVitals(s, e)
    case PatientSubmitted(p) =>
      UpsertPatientKeepsValid(s, p);
      UpsertPatient(s, p)
    case RosterAdded(date, shift, doctor) =>
      var r := AddRosterEntry(s, date, shift, doctor);
      LogAppendKeepsValid(s, r);
      r
    case ChatSent(when, msg) =>
      var r := SendChat(s, when, msg);
      LogAppendKeepsValid(s, r);
      r
    case PilotRequested(req) =>
      var r := SubmitPilot(s, req);
      LogAppendKeepsValid(s, r);
      r
  }

  /** Handles the interactions in order: every session reached this way keeps
      the invariant (in particular its active profile exists and the five
      profile dictionaries share one key set) and extends the one it started
      from. */
  function Run(s: SessionState, actions: seq<Action>): (r: SessionState)
    requires Valid(s)
    ensures Valid(r) && Grows(s, r)
    ensures r.activeProfile in r.profiles
    decreases |actions|
  {
    if |actions| == 0 then
      assert s.profileNames <= s.profileNames;
      s
    else
      var t := Step(s, actions[0]);
      var r := Run(t, actions[1..]);
      GrowsTransitive(s, t, r);
      r
  }

  /** From the seeded session, whatever happens, "Me" keeps its untouched
      profile record, is still a key of every profile dictionary, and the
      active profile exists. */
  lemma MeIsNeverLost(actions: seq<Action>)
    ensures var r := Run(Init(), actions);
      && "Me" in r.profiles && r.profiles["Me"] == NewProfile
      && "Me" in r.vitals && "Me" in r.meds && "Me" in r.records && "Me" in r.passport
      && r.activeProfile in r.profiles
  {
    var r := Run(Init(), actions);
    assert "Me" in Init().profiles;
    assert "Me" in r.profiles;
  }
}
