/** The read-only text views: `Person.display_details`, `Patient.view_profile`,
    `Doctor.view_schedule` and the three `list_*` methods of the registry.
    What is proved is their line structure and their empty cases, not the
    exact layout. */
module Rendering {
  import opened Util
  import opened Entities
  import opened Clinic

  /** `Person.display_details`. */
  function DisplayDetails(p: Person): string {
    "Name: " + p.name + ", Age: " + IntToString(p.age) + ", Gender: " + p.gender
  }

  // ---------------------------------------------------------------------------
  // Profiles and schedules

  /** The line `view_profile` writes for one appointment. */
  function ProfileLine(a: Appointment): string {
    " - " + a.appointmentId + " (" + a.date + " " + a.time + ")"
  }

  /** The appointment block of `view_profile`: one line per appointment in the
      patient's list, or "None" when the joined text is empty. */
  function AppointmentsBlock(r: Registry, p: nat): (block: string)
    requires p < |r.patients|
    requires forall j :: 0 <= j < |r.patients[p].appointmentList| ==> r.patients[p].appointmentList[j] < |r.appointments|
  {
    var l := r.patients[p].appointmentList;
    var joined := Join(seq(|l|, j requires 0 <= j < |l| => ProfileLine(r.appointments[l[j]])), "\n");
    if joined == "" then "None" else joined
  }

  /** `Patient.view_profile`. */
  function ViewProfile(r: Registry, p: nat): string
    requires p < |r.patients|
    requires forall j :: 0 <= j < |r.patients[p].appointmentList| ==> r.patients[p].appointmentList[j] < |r.appointments|
  {
    "Patient ID: " + r.patients[p].patientId + "\n" + DisplayDetails(r.patients[p].person) + "\n"
    + "Appointments:\n" + AppointmentsBlock(r, p)
  }

  /** The profile says "None" exactly when the patient has no appointments;
      otherwise, when no identifier, date or time holds a line break, it has
      one line per appointment, in the order of the patient's list. */
  lemma ProfileBlock(r: Registry, p: nat)
    requires p < |r.patients|
    requires forall j :: 0 <= j < |r.patients[p].appointmentList| ==> r.patients[p].appointmentList[j] < |r.appointments|
    ensures AppointmentsBlock(r, p) == "None" <==> r.patients[p].appointmentList == []
    ensures var l := r.patients[p].appointmentList;
      l != [] && (forall j :: 0 <= j < |l| ==> '\n' !in ProfileLine(r.appointments[l[j]])) ==>
        Split(AppointmentsBlock(r, p), '\n') == seq(|l|, j requires 0 <= j < |l| => ProfileLine(r.appointments[l[j]]))
  {
    var l := r.patients[p].appointmentList;
    var lines := seq(|l|, j requires 0 <= j < |l| => ProfileLine(r.appointments[l[j]]));
    JoinEmpty(lines, "\n");
    if l != [] {
      assert lines[0][0] == ' ';
      var joined := Join(lines, "\n");
      assert |joined| >= |lines[0]| by {
        JoinPrefix(lines, "\n");
      }
      assert joined[0] == ' ';
      if forall j :: 0 <= j < |l| ==> '\n' !in lines[j] {
        SplitJoin(lines, '\n');
      }
    }
  }

  /** A joined text starts with its first part. */
  lemma JoinPrefix(parts: seq<string>, sep: string)
    requires |parts| >= 1
    ensures |Join(parts, sep)| >= |parts[0]| && Join(parts, sep)[..|parts[0]|] == parts[0]
  {
    if |parts| > 1 {
      assert Join(parts, sep) == parts[0] + (sep + Join(parts[1..], sep));
    }
  }

  /** `Doctor.view_schedule`. By Python's precedence the conditional covers the
      whole concatenation, so an empty schedule gives only "No available slots",
      without the identifier and specialty lines. */
  function ViewSchedule(d: Doctor): string {
    if |d.schedule| > 0 then
      "Doctor ID: " + d.doctorId + "\n" + "Specialty: " + d.specialty + "\n"
      + "Available Slots:\n - " + Join(d.schedule, "\n - ")
    else "No available slots"
  }

  /** The schedule view is "No available slots" exactly when the schedule is
      empty, and otherwise starts with the doctor's identifier. */
  lemma ScheduleEmpty(d: Doctor)
    ensures ViewSchedule(d) == "No available slots" <==> d.schedule == []
    ensures d.schedule != [] ==> ViewSchedule(d)[..11 + |d.doctorId|] == "Doctor ID: " + d.doctorId
  {
    if d.schedule != [] {
      var v := ViewSchedule(d);
      assert v[0] == 'D';
      assert v[..11 + |d.doctorId|] == "Doctor ID: " + d.doctorId;
    }
  }

  // ---------------------------------------------------------------------------
  // Registry listings

  function PatientLine(p: Patient): string {
    p.patientId + ": " + p.person.name
  }

  function DoctorLine(d: Doctor): string {
    d.doctorId + ": " + d.person.name + " (" + d.specialty + ")"
  }

  function AppointmentLine(r: Registry, a: Appointment): string
    requires a.patient < |r.patients| && a.doctor < |r.doctors|
  {
    a.appointmentId + ": " + r.patients[a.patient].person.name + " -> " + r.doctors[a.doctor].person.name
    + " on " + a.date + " at " + a.time + " (" + a.status + ")"
  }

  function PatientLines(r: Registry): (lines: seq<string>)
    ensures |lines| == |r.patients|
    ensures forall i :: 0 <= i < |lines| ==> lines[i] == PatientLine(r.patients[i])
  {
    seq(|r.patients|, i requires 0 <= i < |r.patients| => PatientLine(r.patients[i]))
  }

  function DoctorLines(r: Registry): (lines: seq<string>)
    ensures |lines| == |r.doctors|
    ensures forall i :: 0 <= i < |lines| ==> lines[i] == DoctorLine(r.doctors[i])
  {
    seq(|r.doctors|, i requires 0 <= i < |r.doctors| => DoctorLine(r.doctors[i]))
  }

  function AppointmentLines(r: Registry): (lines: seq<string>)
    requires RefsValid(r)
    ensures |lines| == |r.appointments|
    ensures forall k :: 0 <= k < |lines| ==> lines[k] == AppointmentLine(r, r.appointments[k])
  {
    seq(|r.appointments|, k requires 0 <= k < |r.appointments| && RefsValid(r) => AppointmentLine(r, r.appointments[k]))
  }

  /** `list_patients`. */
  function ListPatients(r: Registry): string {
    Join(PatientLines(r), "\n")
  }

  /** `list_doctors`. */
  function ListDoctors(r: Registry): string {
    Join(DoctorLines(r), "\n")
  }

  /** `list_appointments`. */
  function ListAppointments(r: Registry): string
    requires RefsValid(r)
  {
    Join(AppointmentLines(r), "\n")
  }

  /** Joined lines that are never empty: the text is empty exactly when there
      are no lines, and splitting it gives the lines back when none holds a
      line break. */
  lemma Listing(lines: seq<string>)
    requires forall i :: 0 <= i < |lines| ==> lines[i] != ""
    ensures Join(lines, "\n") == "" <==> lines == []
    ensures lines != [] && (forall i :: 0 <= i < |lines| ==> '\n' !in lines[i]) ==>
      Split(Join(lines, "\n"), '\n') == lines
  {
    JoinEmpty(lines, "\n");
    if lines != [] && forall i :: 0 <= i < |lines| ==> '\n' !in lines[i] {
      SplitJoin(lines, '\n');
    }
  }

  /** `list_patients` is empty exactly when there are no patients, and holds
      one line per patient, in registration order, when no identifier or name
      holds a line break. */
  lemma ListPatientsLines(r: Registry)
    ensures ListPatients(r) == "" <==> r.patients == []
    ensures r.patients != [] && (forall i :: 0 <= i < |r.patients| ==> '\n' !in PatientLine(r.patients[i])) ==>
      Split(ListPatients(r), '\n') == PatientLines(r)
  {
    Listing(PatientLines(r));
  }

  /** `list_doctors` is empty exactly when there are no doctors, and holds one
      line per doctor, in registration order, when no field holds a line break. */
  lemma ListDoctorsLines(r: Registry)
    ensures ListDoctors(r) == "" <==> r.doctors == []
    ensures r.doctors != [] && (forall i :: 0 <= i < |r.doctors| ==> '\n' !in DoctorLine(r.doctors[i])) ==>
      Split(ListDoctors(r), '\n') == DoctorLines(r)
  {
    Listing(DoctorLines(r));
  }

  /** `list_appointments` is empty exactly when there are no appointments, and
      holds one line per appointment, cancelled ones included, in booking
      order, when no field holds a line break. */
  lemma ListAppointmentsLines(r: Registry)
    requires RefsValid(r)
    ensures ListAppointments(r) == "" <==> r.appointments == []
    ensures (r.appointments != [] && forall k :: 0 <= k < |r.appointments| ==> '\n' !in AppointmentLine(r, r.appointments[k]))
      ==> Split(ListAppointments(r), '\n') == AppointmentLines(r)
  {
    Listing(AppointmentLines(r));
  }
}
