/** Rebuilding the registry from a decoded snapshot, as `load_data` does, and
    the flattened snapshot `save_data` writes. JSON reading and writing are not
    modelled: a snapshot here is the already-decoded document, with every key
    that a record may lack written as an `Option` (None = the key is missing). */
module Persistence {
  import opened Util
  import opened Entities
  import opened Clinic

  datatype PatientRecord = PatientRecord(
    name: Option<string>,
    age: Option<int>,
    gender: Option<string>,
    patientId: Option<string>)

  datatype DoctorRecord = DoctorRecord(
    name: Option<string>,
    age: Option<int>,
    gender: Option<string>,
    specialty: Option<string>,
    doctorId: Option<string>,
    schedule: Option<seq<string>>)

  datatype AppointmentRecord = AppointmentRecord(
    appointmentId: Option<string>,
    patientId: Option<string>,
    doctorId: Option<string>,
    date: Option<string>,
    time: Option<string>,
    status: Option<string>)

  /** The decoded document: the three top-level lists, each of which may be missing. */
  datatype Snapshot = Snapshot(
    patients: Option<seq<PatientRecord>>,
    doctors: Option<seq<DoctorRecord>>,
    appointments: Option<seq<AppointmentRecord>>)

  /** How `load_data` ends: with a rebuilt registry; with the `except` branch
      resetting all three lists (missing file, malformed JSON, missing key); or
      with a `StopIteration` from a bare `next`, which that `except` does not
      catch, so it escapes the constructor. */
  datatype LoadOutcome = Restored(registry: Registry) | Fallback | Uncaught

  // ---------------------------------------------------------------------------
  // Patients and doctors

  /** One patient as `load_data` recreates it: a fresh patient with an empty
      appointment list, whose identifier is then overwritten by the saved one. */
  function PatientFrom(rec: PatientRecord): Option<Patient> {
    if rec.name.Some? && rec.age.Some? && rec.gender.Some? && rec.patientId.Some? then
      Some(NewPatient(rec.name.value, rec.age.value, rec.gender.value, rec.patientId.value))
    else None
  }

  /** The patients loop of `load_data`: a record with a missing key stops it. */
  function PatientsFrom(recs: seq<PatientRecord>): (r: Option<seq<Patient>>)
    ensures r.None? <==> exists i :: 0 <= i < |recs| && PatientFrom(recs[i]).None?
    ensures r.Some? ==> |r.value| == |recs| && forall i :: 0 <= i < |recs| ==> PatientFrom(recs[i]) == Some(r.value[i])
    decreases |recs|
  {
    if recs == [] then Some([])
    else
      var n := |recs| - 1;
      match PatientsFrom(recs[..n])
      case None => None
      case Some(ps) =>
        match PatientFrom(recs[n])
        case None => None
        case Some(p) => Some(ps + [p])
  }

  /** One doctor as `load_data` recreates it: identifier overwritten and the
      saved schedule copied as it is, not recomputed from the appointments. */
  function DoctorFrom(rec: DoctorRecord): Option<Doctor> {
    if rec.name.Some? && rec.age.Some? && rec.gender.Some? && rec.specialty.Some?
       && rec.doctorId.Some? && rec.schedule.Some? then
      Some(NewDoctor(rec.name.value, rec.age.value, rec.gender.value, rec.specialty.value, rec.doctorId.value)
             .(schedule := rec.schedule.value))
    else None
  }

  /** The doctors loop of `load_data`: a record with a missing key stops it. */
  function DoctorsFrom(recs: seq<DoctorRecord>): (r: Option<seq<Doctor>>)
    ensures r.None? <==> exists i :: 0 <= i < |recs| && DoctorFrom(recs[i]).None?
    ensures r.Some? ==> |r.value| == |recs| && forall i :: 0 <= i < |recs| ==> DoctorFrom(recs[i]) == Some(r.value[i])
    decreases |recs|
  {
    if recs == [] then Some([])
    else
      var n := |recs| - 1;
      match DoctorsFrom(recs[..n])
      case None => None
      case Some(ds) =>
        match DoctorFrom(recs[n])
        case None => None
        case Some(d) => Some(ds + [d])
  }

  // ---------------------------------------------------------------------------
  // Appointments

  predicate Complete(rec: AppointmentRecord) {
    rec.appointmentId.Some? && rec.patientId.Some? && rec.doctorId.Some?
    && rec.date.Some? && rec.time.Some? && rec.status.Some?
  }

  /** A complete record whose patient and doctor identifiers both occur. */
  predicate Resolves(ps: seq<Patient>, ds: seq<Doctor>, rec: AppointmentRecord) {
    Complete(rec) && rec.patientId.value in PatientIds(ps) && rec.doctorId.value in DoctorIds(ds)
  }

  /** The appointment a resolving record becomes: attached to the FIRST patient
      and the FIRST doctor with the saved identifiers, keeping the saved
      appointment identifier and status. */
  function Relinked(ps: seq<Patient>, ds: seq<Doctor>, rec: AppointmentRecord): Appointment
    requires Resolves(ps, ds, rec)
  {
    Appointment(
      rec.appointmentId.value,
      FirstIndex(PatientIds(ps), rec.patientId.value).value,
      FirstIndex(DoctorIds(ds), rec.doctorId.value).value,
      rec.date.value, rec.time.value, rec.status.value)
  }

  /** Where the appointments loop stands: the patients (with their rebuilt
      appointment lists) and the appointments so far, or how it stopped. */
  datatype Relink = Linked(patients: seq<Patient>, appointments: seq<Appointment>) | KeyMissing | NoMatch

  /** One iteration of the appointments loop. The patient lookup comes first,
      then the doctor lookup; each generator reads the saved identifier only
      when there is an entity to compare it with, so an empty list stops the
      bare `next` before a missing key is noticed. The new appointment is
      appended to its patient's list (by `Appointment.__init__`) and to the
      registry's list. */
  function RelinkOne(ps: seq<Patient>, ds: seq<Doctor>, apps: seq<Appointment>, rec: AppointmentRecord): Relink {
    if |ps| == 0 then NoMatch
    else if rec.patientId.None? then KeyMissing
    else match FirstIndex(PatientIds(ps), rec.patientId.value)
    case None => NoMatch
    case Some(p) =>
      if |ds| == 0 then NoMatch
      else if rec.doctorId.None? then KeyMissing
      else match FirstIndex(DoctorIds(ds), rec.doctorId.value)
      case None => NoMatch
      case Some(d) =>
        if !Complete(rec) then KeyMissing
        else
          Linked(ps[p := ps[p].(appointmentList := ps[p].appointmentList + [|apps|])],
                 apps + [Appointment(rec.appointmentId.value, p, d, rec.date.value, rec.time.value, rec.status.value)])
  }

  /** The appointments loop over the saved records, in their saved order. */
  function RelinkAll(ps: seq<Patient>, ds: seq<Doctor>, recs: seq<AppointmentRecord>): Relink
    decreases |recs|
  {
    if recs == [] then Linked(ps, [])
    else
      match RelinkAll(ps, ds, recs[..|recs| - 1])
      case Linked(ps', apps) => RelinkOne(ps', ds, apps, recs[|recs| - 1])
      case stopped => stopped
  }

  /** `load_data`, given the decoded document, or None when the file is absent
      or is not valid JSON. */
  function Load(stored: Option<Snapshot>): LoadOutcome {
    match stored
    case None => Fallback
    case Some(snap) =>
      if snap.patients.None? then Fallback
      else match PatientsFrom(snap.patients.value)
      case None => Fallback
      case Some(ps) =>
        if snap.doctors.None? then Fallback
        else match DoctorsFrom(snap.doctors.value)
        case None => Fallback
        case Some(ds) =>
          if snap.appointments.None? then Fallback
          else match RelinkAll(ps, ds, snap.appointments.value)
          case Linked(ps', apps) => Restored(Registry(ps', ds, apps))
          case KeyMissing => Fallback
          case NoMatch => Uncaught
  }

  /** The registry `load_data` leaves behind when it returns. */
  function LoadedRegistry(o: LoadOutcome): Registry
    requires !o.Uncaught?
  {
    if o.Restored? then o.registry else EmptyRegistry
  }

  // ---------------------------------------------------------------------------
  // Saving

  function PatientRecordOf(p: Patient): PatientRecord {
    PatientRecord(Some(p.person.name), Some(p.person.age), Some(p.person.gender), Some(p.patientId))
  }

  function DoctorRecordOf(d: Doctor): DoctorRecord {
    DoctorRecord(Some(d.person.name), Some(d.person.age), Some(d.person.gender),
                 Some(d.specialty), Some(d.doctorId), Some(d.schedule))
  }

  /** An appointment flattened to identifiers, as `save_data` writes it. */
  function AppointmentRecordOf(r: Registry, k: nat): AppointmentRecord
    requires k < |r.appointments|
    requires r.appointments[k].patient < |r.patients| && r.appointments[k].doctor < |r.doctors|
  {
    var a := r.appointments[k];
    AppointmentRecord(Some(a.appointmentId), Some(r.patients[a.patient].patientId),
                      Some(r.doctors[a.doctor].doctorId), Some(a.date), Some(a.time), Some(a.status))
  }

  /** The patients list of the document `save_data` builds. */
  function SavedPatients(ps: seq<Patient>): (recs: seq<PatientRecord>)
    ensures |recs| == |ps|
    ensures forall i :: 0 <= i < |ps| ==> recs[i] == PatientRecordOf(ps[i])
  {
    seq(|ps|, i requires 0 <= i < |ps| => PatientRecordOf(ps[i]))
  }

  /** The doctors list of the document `save_data` builds. */
  function SavedDoctors(ds: seq<Doctor>): (recs: seq<DoctorRecord>)
    ensures |recs| == |ds|
    ensures forall i :: 0 <= i < |ds| ==> recs[i] == DoctorRecordOf(ds[i])
  {
    seq(|ds|, i requires 0 <= i < |ds| => DoctorRecordOf(ds[i]))
  }

  /** The appointments list of the document `save_data` builds, one record per
      appointment in registry order. */
  function SavedAppointments(r: Registry): (recs: seq<AppointmentRecord>)
    requires RefsValid(r)
    ensures |recs| == |r.appointments|
    ensures forall k :: 0 <= k < |recs| ==> recs[k] == AppointmentRecordOf(r, k)
  {
    seq(|r.appointments|, k requires 0 <= k < |r.appointments| && RefsValid(r) => AppointmentRecordOf(r, k))
  }

  /** The document `save_data` builds. The patients' appointment lists are not
      part of it: `load_data` ignores them, and `json.dump` cannot write the
      `Appointment` objects they hold. */
  function SnapshotOf(r: Registry): Snapshot
    requires RefsValid(r)
  {
    Snapshot(
      Some(SavedPatients(r.patients)),
      Some(SavedDoctors(r.doctors)),
      Some(SavedAppointments(r)))
  }

  /** The patients with their appointment lists emptied, as loading first recreates them. */
  function Unlisted(ps: seq<Patient>): (r: seq<Patient>)
    ensures |r| == |ps|
    ensures forall i :: 0 <= i < |ps| ==> r[i] == ps[i].(appointmentList := [])
  {
    seq(|ps|, i requires 0 <= i < |ps| => ps[i].(appointmentList := []))
  }

  // ---------------------------------------------------------------------------
  // What loading promises

  /** Rewriting a patient's appointment list keeps every patient identifier. */
  lemma ListUpdateKeepsIds(ps: seq<Patient>, p: nat, l: seq<nat>)
    requires p < |ps|
    ensures PatientIds(ps[p := ps[p].(appointmentList := l)]) == PatientIds(ps)
  {
  }

  /** One step of the appointments loop, when it goes through. */
  lemma RelinkOneLinked(ps: seq<Patient>, ds: seq<Doctor>, apps: seq<Appointment>, rec: AppointmentRecord)
    requires RelinkOne(ps, ds, apps, rec).Linked?
    ensures Resolves(ps, ds, rec)
    ensures var a := Relinked(ps, ds, rec);
      RelinkOne(ps, ds, apps, rec) ==
        Linked(ps[a.patient := ps[a.patient].(appointmentList := ps[a.patient].appointmentList + [|apps|])], apps + [a])
    ensures PatientIds(RelinkOne(ps, ds, apps, rec).patients) == PatientIds(ps)
  {
    var a := Relinked(ps, ds, rec);
    ListUpdateKeepsIds(ps, a.patient, ps[a.patient].appointmentList + [|apps|]);
  }

  /** What the appointments loop has built after the records `recs`, starting
      from patients `ps` with empty appointment lists: the patients with their
      lists rebuilt, and one relinked appointment per record. */
  ghost predicate RelinkedFrom(ps: seq<Patient>, ds: seq<Doctor>, recs: seq<AppointmentRecord>, o: Relink) {
    && o.Linked?
    && |o.patients| == |ps|
    && PatientIds(o.patients) == PatientIds(ps)
    && (forall p :: 0 <= p < |ps| ==> o.patients[p] == ps[p].(appointmentList := AppointmentsOf(o.appointments, p)))
    && |o.appointments| == |recs|
    && (forall k :: 0 <= k < |recs| ==> Resolves(ps, ds, recs[k]) && o.appointments[k] == Relinked(ps, ds, recs[k]))
  }

  /** Each patient's rebuilt appointment list is `AppointmentsOf` the
      appointments linked so far, and each appointment is its record relinked. */
  lemma {:induction false} RelinkAllFacts(ps: seq<Patient>, ds: seq<Doctor>, recs: seq<AppointmentRecord>)
    requires forall p :: 0 <= p < |ps| ==> ps[p].appointmentList == []
    ensures RelinkAll(ps, ds, recs).Linked? ==> RelinkedFrom(ps, ds, recs, RelinkAll(ps, ds, recs))
    decreases |recs|
  {
    if recs == [] {
      assert forall p :: 0 <= p < |ps| ==> ps[p] == ps[p].(appointmentList := []);
    } else if RelinkAll(ps, ds, recs[..|recs| - 1]).Linked? {
      RelinkAllFacts(ps, ds, recs[..|recs| - 1]);
      RelinkStep(ps, ds, recs);
    }
  }

  /** The inductive step of `RelinkAllFacts`. */
  lemma RelinkStep(ps: seq<Patient>, ds: seq<Doctor>, recs: seq<AppointmentRecord>)
    requires recs != []
    requires RelinkedFrom(ps, ds, recs[..|recs| - 1], RelinkAll(ps, ds, recs[..|recs| - 1]))
    ensures RelinkAll(ps, ds, recs).Linked? ==> RelinkedFrom(ps, ds, recs, RelinkAll(ps, ds, recs))
  {
    var done := recs[..|recs| - 1];
    var rec := recs[|recs| - 1];
    var prev := RelinkAll(ps, ds, done);
    RelinkAllLast(ps, ds, recs);
    if RelinkAll(ps, ds, recs).Linked? {
      RelinkOneStep(ps, ds, recs, prev);
    }
  }

  /** The loop after the last record is one more iteration after the others. */
  lemma RelinkAllLast(ps: seq<Patient>, ds: seq<Doctor>, recs: seq<AppointmentRecord>)
    requires recs != [] && RelinkAll(ps, ds, recs[..|recs| - 1]).Linked?
    ensures var prev := RelinkAll(ps, ds, recs[..|recs| - 1]);
      RelinkAll(ps, ds, recs) == RelinkOne(prev.patients, ds, prev.appointments, recs[|recs| - 1])
  {
  }

  lemma RelinkOneStep(ps: seq<Patient>, ds: seq<Doctor>, recs: seq<AppointmentRecord>, prev: Relink)
    requires recs != []
    requires RelinkedFrom(ps, ds, recs[..|recs| - 1], prev)
    requires RelinkOne(prev.patients, ds, prev.appointments, recs[|recs| - 1]).Linked?
    ensures RelinkedFrom(ps, ds, recs, RelinkOne(prev.patients, ds, prev.appointments, recs[|recs| - 1]))
  {
    var done := recs[..|recs| - 1];
    var rec := recs[|recs| - 1];
    var o := RelinkOne(prev.patients, ds, prev.appointments, rec);
    RelinkOneLinked(prev.patients, ds, prev.appointments, rec);
    var a := Relinked(ps, ds, rec);
    assert a == Relinked(prev.patients, ds, rec);
    assert o.appointments == prev.appointments + [a];
    forall p | 0 <= p < |ps|
      ensures o.patients[p] == ps[p].(appointmentList := AppointmentsOf(o.appointments, p))
    {
      AppendUnfold(prev.appointments, a, p, 0);
    }
    forall k | 0 <= k < |recs|
      ensures Resolves(ps, ds, recs[k]) && o.appointments[k] == Relinked(ps, ds, recs[k])
    {
      if k < |done| {
        assert recs[k] == done[k];
      }
    }
  }

  /** Running the loop one record further than a prefix that went through. */
  lemma RelinkAllPrefixStep(ps: seq<Patient>, ds: seq<Doctor>, recs: seq<AppointmentRecord>, j: nat)
    requires j < |recs| && RelinkAll(ps, ds, recs[..j]).Linked?
    ensures var prev := RelinkAll(ps, ds, recs[..j]);
      RelinkAll(ps, ds, recs[..j + 1]) == RelinkOne(prev.patients, ds, prev.appointments, recs[j])
  {
    var pre := recs[..j + 1];
    assert pre[..j] == recs[..j];
    RelinkAllLast(ps, ds, pre);
  }

  /** Once the loop has stopped, the remaining records do not matter. */
  lemma {:induction false} RelinkAllStops(ps: seq<Patient>, ds: seq<Doctor>, recs: seq<AppointmentRecord>, n: nat)
    requires n <= |recs| && !RelinkAll(ps, ds, recs[..n]).Linked?
    ensures RelinkAll(ps, ds, recs) == RelinkAll(ps, ds, recs[..n])
    decreases |recs| - n
  {
    if n == |recs| {
      assert recs[..n] == recs;
    } else {
      var pre := recs[..n + 1];
      assert pre[..n] == recs[..n];
      assert RelinkAll(ps, ds, pre) == RelinkAll(ps, ds, recs[..n]);
      RelinkAllStops(ps, ds, recs, n + 1);
    }
  }

  /** With every appointment record complete, the loop never stops on a
      missing key, and it stops on a failed lookup exactly when some record
      names a patient or doctor identifier that does not occur. */
  lemma {:induction false} RelinkAllComplete(ps: seq<Patient>, ds: seq<Doctor>, recs: seq<AppointmentRecord>)
    requires forall k :: 0 <= k < |recs| ==> Complete(recs[k])
    ensures !RelinkAll(ps, ds, recs).KeyMissing?
    ensures RelinkAll(ps, ds, recs).Linked? <==> forall k :: 0 <= k < |recs| ==> Resolves(ps, ds, recs[k])
    ensures RelinkAll(ps, ds, recs).Linked? ==> PatientIds(RelinkAll(ps, ds, recs).patients) == PatientIds(ps)
    decreases |recs|
  {
    if recs != [] {
      var n := |recs| - 1;
      RelinkAllComplete(ps, ds, recs[..n]);
      assert forall k :: 0 <= k < n ==> recs[..n][k] == recs[k];
      RelinkCompleteStep(ps, ds, recs);
    }
  }

  /** The inductive step of `RelinkAllComplete`. */
  lemma RelinkCompleteStep(ps: seq<Patient>, ds: seq<Doctor>, recs: seq<AppointmentRecord>)
    requires recs != []
    requires Complete(recs[|recs| - 1])
    requires var prev := RelinkAll(ps, ds, recs[..|recs| - 1]);
      && !prev.KeyMissing?
      && (prev.Linked? <==> forall k :: 0 <= k < |recs| - 1 ==> Resolves(ps, ds, recs[k]))
      && (prev.Linked? ==> PatientIds(prev.patients) == PatientIds(ps))
    ensures !RelinkAll(ps, ds, recs).KeyMissing?
    ensures RelinkAll(ps, ds, recs).Linked? <==> forall k :: 0 <= k < |recs| ==> Resolves(ps, ds, recs[k])
    ensures RelinkAll(ps, ds, recs).Linked? ==> PatientIds(RelinkAll(ps, ds, recs).patients) == PatientIds(ps)
  {
    var n := |recs| - 1;
    var prev := RelinkAll(ps, ds, recs[..n]);
    if prev.Linked? {
      RelinkAllLast(ps, ds, recs);
      var o := RelinkOne(prev.patients, ds, prev.appointments, recs[n]);
      if o.Linked? {
        RelinkOneLinked(prev.patients, ds, prev.appointments, recs[n]);
      }
    }
  }

  /** A top-level list is missing, or a patient or doctor record lacks a key. */
  predicate MissesKey(snap: Snapshot) {
    || snap.patients.None? || snap.doctors.None? || snap.appointments.None?
    || (exists i :: 0 <= i < |snap.patients.value| && PatientFrom(snap.patients.value[i]).None?)
    || (exists i :: 0 <= i < |snap.doctors.value| && DoctorFrom(snap.doctors.value[i]).None?)
  }

  /** A missing file, malformed JSON, a missing top-level list or a patient or
      doctor record with a missing key resets the registry to empty. */
  lemma LoadMissingKey(stored: Option<Snapshot>)
    requires stored.None? || MissesKey(stored.value)
    ensures Load(stored) == Fallback && LoadedRegistry(Load(stored)) == EmptyRegistry
  {
  }

  /** A restored registry is well linked: each patient's appointment list is
      rebuilt from the saved appointments in their saved order, cancelled ones
      included. Patients and doctors are the saved records (each doctor's
      schedule copied as saved), and every appointment is its saved record
      attached to the first patient and first doctor with the saved
      identifiers, keeping its saved identifier and status. */
  lemma LoadRestores(stored: Option<Snapshot>)
    requires Load(stored).Restored?
    ensures var r := Load(stored).registry;
      var snap := stored.value;
      && WellLinked(r)
      && |r.patients| == |snap.patients.value|
      && (forall i :: 0 <= i < |r.patients| ==>
            PatientFrom(snap.patients.value[i]) == Some(r.patients[i].(appointmentList := [])))
      && |r.doctors| == |snap.doctors.value|
      && (forall i :: 0 <= i < |r.doctors| ==> DoctorFrom(snap.doctors.value[i]) == Some(r.doctors[i]))
      && |r.appointments| == |snap.appointments.value|
      && (forall k :: 0 <= k < |r.appointments| ==>
            Resolves(r.patients, r.doctors, snap.appointments.value[k])
            && r.appointments[k] == Relinked(r.patients, r.doctors, snap.appointments.value[k]))
  {
    var snap := stored.value;
    var ps := PatientsFrom(snap.patients.value).value;
    var ds := DoctorsFrom(snap.doctors.value).value;
    var recs := snap.appointments.value;
    var r := Load(stored).registry;
    RelinkAllFacts(ps, ds, recs);
    assert PatientIds(r.patients) == PatientIds(ps);
  }

  /** When every record has all its keys, loading raises the uncaught
      `StopIteration` exactly when some appointment names a patient or doctor
      identifier that no saved patient or doctor has. */
  lemma LoadCrashIff(snap: Snapshot)
    requires snap.patients.Some? && snap.doctors.Some? && snap.appointments.Some?
    requires forall i :: 0 <= i < |snap.patients.value| ==> PatientFrom(snap.patients.value[i]).Some?
    requires forall i :: 0 <= i < |snap.doctors.value| ==> DoctorFrom(snap.doctors.value[i]).Some?
    requires forall k :: 0 <= k < |snap.appointments.value| ==> Complete(snap.appointments.value[k])
    ensures Load(Some(snap)) == Uncaught <==>
      exists k :: 0 <= k < |snap.appointments.value| && Complete(snap.appointments.value[k]) &&
        (snap.appointments.value[k].patientId.value !in SavedPatientIds(snap.patients.value)
         || snap.appointments.value[k].doctorId.value !in SavedDoctorIds(snap.doctors.value))
    ensures Load(Some(snap)) != Fallback
  {
    var ps := PatientsFrom(snap.patients.value).value;
    var ds := DoctorsFrom(snap.doctors.value).value;
    assert PatientIds(ps) == SavedPatientIds(snap.patients.value);
    assert DoctorIds(ds) == SavedDoctorIds(snap.doctors.value);
    RelinkAllComplete(ps, ds, snap.appointments.value);
  }

  /** Where one iteration of the appointments loop raises `KeyError`: the
      patient generator reads the saved patient identifier only when there is
      a patient to compare it with, the doctor generator likewise, and the
      remaining keys are read once both lookups have succeeded. */
  predicate StopsOnKey(ps: seq<Patient>, ds: seq<Doctor>, rec: AppointmentRecord) {
    |ps| > 0 &&
    (rec.patientId.None? ||
     (rec.patientId.value in PatientIds(ps) && |ds| > 0 &&
      (rec.doctorId.None? || (rec.doctorId.value in DoctorIds(ds) && !Complete(rec)))))
  }

  /** Where one iteration raises `StopIteration`: there is no patient at all,
      or none with the saved identifier; or, the patient found, the same for
      doctors. */
  predicate StopsOnLookup(ps: seq<Patient>, ds: seq<Doctor>, rec: AppointmentRecord) {
    || |ps| == 0
    || (rec.patientId.Some? && rec.patientId.value !in PatientIds(ps))
    || (rec.patientId.Some? && rec.patientId.value in PatientIds(ps) &&
        (|ds| == 0 || (rec.doctorId.Some? && rec.doctorId.value !in DoctorIds(ds))))
  }

  /** The three ways one iteration of the appointments loop can end: it stops
      on a missing key exactly where a key is read and absent, stops on a
      failed lookup exactly where a generator runs dry, and goes through
      exactly when the record resolves. */
  lemma RelinkOneOutcome(ps: seq<Patient>, ds: seq<Doctor>, apps: seq<Appointment>, rec: AppointmentRecord)
    ensures RelinkOne(ps, ds, apps, rec) == KeyMissing <==> StopsOnKey(ps, ds, rec)
    ensures RelinkOne(ps, ds, apps, rec) == NoMatch <==> StopsOnLookup(ps, ds, rec)
    ensures RelinkOne(ps, ds, apps, rec).Linked? <==> Resolves(ps, ds, rec)
  {
  }

  /** When every appointment record before the n-th went through and the n-th
      misses a key the loop reads, loading takes the `except` branch and the
      registry is empty. */
  lemma LoadKeyMissingAt(snap: Snapshot, ps: seq<Patient>, ds: seq<Doctor>, n: nat)
    requires snap.patients.Some? && PatientsFrom(snap.patients.value) == Some(ps)
    requires snap.doctors.Some? && DoctorsFrom(snap.doctors.value) == Some(ds)
    requires snap.appointments.Some? && n < |snap.appointments.value|
    requires forall k :: 0 <= k < n ==> Resolves(ps, ds, snap.appointments.value[k])
    requires StopsOnKey(ps, ds, snap.appointments.value[n])
    ensures Load(Some(snap)) == Fallback && LoadedRegistry(Load(Some(snap))) == EmptyRegistry
  {
    var recs := snap.appointments.value;
    var pre := recs[..n];
    assert forall k :: 0 <= k < n ==> pre[k] == recs[k];
    RelinkAllComplete(ps, ds, pre);
    var prev := RelinkAll(ps, ds, pre);
    assert |prev.patients| == |PatientIds(prev.patients)| == |ps|;
    RelinkAllPrefixStep(ps, ds, recs, n);
    RelinkOneOutcome(prev.patients, ds, prev.appointments, recs[n]);
    RelinkAllStops(ps, ds, recs, n + 1);
  }

  /** With no saved patients, any saved appointment makes loading raise the
      uncaught `StopIteration`, whatever keys that record lacks: the bare
      `next` over an empty list never reads the record. */
  lemma LoadNoPatientsCrashes(snap: Snapshot)
    requires snap.patients == Some([])
    requires snap.doctors.Some? && DoctorsFrom(snap.doctors.value).Some?
    requires snap.appointments.Some? && snap.appointments.value != []
    ensures Load(Some(snap)) == Uncaught
  {
    var recs := snap.appointments.value;
    var ds := DoctorsFrom(snap.doctors.value).value;
    assert PatientsFrom([]) == Some([]);
    assert recs[..0] == [];
    RelinkAllPrefixStep([], ds, recs, 0);
    RelinkAllStops([], ds, recs, 1);
  }

  function SavedPatientIds(recs: seq<PatientRecord>): seq<string>
    requires forall i :: 0 <= i < |recs| ==> PatientFrom(recs[i]).Some?
  {
    seq(|recs|, i requires 0 <= i < |recs| && PatientFrom(recs[i]).Some? => recs[i].patientId.value)
  }

  function SavedDoctorIds(recs: seq<DoctorRecord>): seq<string>
    requires forall i :: 0 <= i < |recs| ==> DoctorFrom(recs[i]).Some?
  {
    seq(|recs|, i requires 0 <= i < |recs| && DoctorFrom(recs[i]).Some? => recs[i].doctorId.value)
  }

  /** Loading the saved patient records gives back the patients, with their
      appointment lists emptied. */
  lemma PatientsFromSaved(ps: seq<Patient>)
    ensures PatientsFrom(SavedPatients(ps)) == Some(Unlisted(ps))
  {
    var recs := SavedPatients(ps);
    var want := Unlisted(ps);
    forall i | 0 <= i < |recs|
      ensures PatientFrom(recs[i]) == Some(want[i])
    {
    }
    var got := PatientsFrom(recs);
    assert got.Some?;
    assert got.value == want;
  }

  /** Loading the saved doctor records gives back the doctors, schedules included. */
  lemma DoctorsFromSaved(ds: seq<Doctor>)
    ensures DoctorsFrom(SavedDoctors(ds)) == Some(ds)
  {
    var recs := SavedDoctors(ds);
    forall i | 0 <= i < |recs|
      ensures DoctorFrom(recs[i]) == Some(ds[i])
    {
    }
    var got := DoctorsFrom(recs);
    assert got.Some?;
    assert got.value == ds;
  }

  /** Saving then loading gives back the same registry, provided it is well
      linked and no two patients and no two doctors share an identifier (the
      source does not enforce this: with a shared identifier an appointment is
      reattached to the first entity that has it). */
  lemma SaveLoadRoundTrip(r: Registry)
    requires WellLinked(r)
    requires NoDup(PatientIds(r.patients)) && NoDup(DoctorIds(r.doctors))
    ensures Load(Some(SnapshotOf(r))) == Restored(r)
  {
    var snap := SnapshotOf(r);
    var ps0 := Unlisted(r.patients);
    var recs := SavedAppointments(r);
    PatientsFromSaved(r.patients);
    DoctorsFromSaved(r.doctors);
    forall k | 0 <= k < |recs|
      ensures Resolves(ps0, r.doctors, recs[k])
    {
      SavedAppointmentRelinks(r, k);
    }
    RelinkAllComplete(ps0, r.doctors, recs);
    RelinkAllFacts(ps0, r.doctors, recs);
    var o := RelinkAll(ps0, r.doctors, recs);
    RelinkedIsOriginal(r, o);
    LoadLinked(snap, ps0, r.doctors);
  }

  /** When both entity loops and the appointments loop go through, loading
      restores what they built. */
  lemma LoadLinked(snap: Snapshot, ps: seq<Patient>, ds: seq<Doctor>)
    requires snap.patients.Some? && PatientsFrom(snap.patients.value) == Some(ps)
    requires snap.doctors.Some? && DoctorsFrom(snap.doctors.value) == Some(ds)
    requires snap.appointments.Some? && RelinkAll(ps, ds, snap.appointments.value).Linked?
    ensures var o := RelinkAll(ps, ds, snap.appointments.value);
      Load(Some(snap)) == Restored(Registry(o.patients, ds, o.appointments))
  {
  }

  /** What the appointments loop builds from a saved well-linked registry with
      distinct identifiers is that registry. */
  lemma RelinkedIsOriginal(r: Registry, o: Relink)
    requires WellLinked(r)
    requires NoDup(PatientIds(r.patients)) && NoDup(DoctorIds(r.doctors))
    requires RelinkedFrom(Unlisted(r.patients), r.doctors, SavedAppointments(r), o)
    ensures o.patients == r.patients && o.appointments == r.appointments
  {
    var recs := SavedAppointments(r);
    forall k | 0 <= k < |recs|
      ensures o.appointments[k] == r.appointments[k]
    {
      SavedAppointmentRelinks(r, k);
    }
    assert o.appointments == r.appointments;
    forall p | 0 <= p < |r.patients|
      ensures o.patients[p] == r.patients[p]
    {
    }
  }

  /** A saved appointment record resolves, and relinks to the appointment it was saved from. */
  lemma SavedAppointmentRelinks(r: Registry, k: nat)
    requires WellLinked(r)
    requires NoDup(PatientIds(r.patients)) && NoDup(DoctorIds(r.doctors))
    requires k < |r.appointments|
    ensures Resolves(Unlisted(r.patients), r.doctors, AppointmentRecordOf(r, k))
    ensures Relinked(Unlisted(r.patients), r.doctors, AppointmentRecordOf(r, k)) == r.appointments[k]
  {
    var a := r.appointments[k];
    assert PatientIds(Unlisted(r.patients)) == PatientIds(r.patients);
    FirstIndexOfDistinct(PatientIds(r.patients), a.patient);
    FirstIndexOfDistinct(DoctorIds(r.doctors), a.doctor);
  }
}
