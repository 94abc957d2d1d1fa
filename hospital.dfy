/** `HospitalSystem`, the registry object: three lists it updates in place.
    Each method is proved against the matching transition function of the
    `Clinic` module, and keeps the registry well linked. Identifiers are
    passed in instead of generated, and `save_data` (called at the end of
    registration and booking) is left out: it changes no registry state. */
module Hospital {
  import opened Util
  import opened Entities
  import opened Clinic
  import opened Persistence

  class HospitalSystem {
    var patients: seq<Patient>
    var doctors: seq<Doctor>
    var appointments: seq<Appointment>

    /** The registry the three lists hold. */
    function State(): Registry
      reads this
    {
      Registry(patients, doctors, appointments)
    }

    /** Every appointment names an existing patient and doctor, and each
        patient's list holds exactly that patient's appointments. */
    ghost predicate Valid()
      reads this
    {
      WellLinked(State())
    }

    /** `__init__`: the three lists start empty and `load_data` runs on the
        decoded document. When it raises the uncaught `StopIteration` the
        object is never handed out, so nothing is promised about it then. */
    constructor (stored: Option<Snapshot>)
      ensures !Load(stored).Uncaught? ==> State() == LoadedRegistry(Load(stored)) && Valid()
    {
      patients := [];
      doctors := [];
      appointments := [];
      new;
      var crashed := LoadData(stored);
    }

    /** `next(p for p in self.patients if p.patient_id == patientId)`. */
    method FindPatient(patientId: string) returns (p: Option<nat>)
      ensures p == FirstIndex(PatientIds(patients), patientId)
      ensures p.Some? ==> p.value < |patients| && patients[p.value].patientId == patientId
    {
      p := LinearSearch(PatientIds(patients), patientId);
    }

    /** `next(d for d in self.doctors if d.doctor_id == doctorId)`. */
    method FindDoctor(doctorId: string) returns (d: Option<nat>)
      ensures d == FirstIndex(DoctorIds(doctors), doctorId)
      ensures d.Some? ==> d.value < |doctors| && doctors[d.value].doctorId == doctorId
    {
      d := LinearSearch(DoctorIds(doctors), doctorId);
    }

    /** `next(a for a in self.appointments if a.appointment_id == appointmentId)`. */
    method FindAppointment(appointmentId: string) returns (k: Option<nat>)
      ensures k == FirstIndex(AppointmentIds(appointments), appointmentId)
      ensures k.Some? ==> k.value < |appointments| && appointments[k.value].appointmentId == appointmentId
    {
      k := LinearSearch(AppointmentIds(appointments), appointmentId);
    }

    /** `add_patient`: returns the new patient. */
    method AddPatient(name: string, age: int, gender: string, patientId: string) returns (patient: Patient)
      requires Valid()
      modifies this
      ensures State() == Clinic.AddPatient(old(State()), name, age, gender, patientId)
      ensures patient == patients[|patients| - 1]
      ensures Valid()
    {
      patient := NewPatient(name, age, gender, patientId);
      patients := patients + [patient];
      AddPatientPreserves(old(State()), name, age, gender, patientId);
    }

    /** `add_doctor`: returns the new doctor. */
    method AddDoctor(name: string, age: int, gender: string, specialty: string, doctorId: string) returns (doctor: Doctor)
      requires Valid()
      modifies this
      ensures State() == Clinic.AddDoctor(old(State()), name, age, gender, specialty, doctorId)
      ensures doctor == doctors[|doctors| - 1]
      ensures Valid()
    {
      doctor := NewDoctor(name, age, gender, specialty, doctorId);
      doctors := doctors + [doctor];
      AddDoctorPreserves(old(State()), name, age, gender, specialty, doctorId);
    }

    /** `book_appointment`: both lookups run before either is checked; the
        `ValueError`s become failures that leave every list as it was. On
        success, `Appointment.__init__` appends the new appointment to its
        patient's list, then the slot goes on the doctor's schedule and the
        appointment on the registry's list. */
    method BookAppointment(patientId: string, doctorId: string, date: string, time: string, appointmentId: string)
      returns (res: Result<Appointment, Error>)
      requires Valid()
      modifies this
      ensures res.Failure? ==>
        Book(old(State()), patientId, doctorId, date, time, appointmentId) == Failure(res.error)
        && State() == old(State())
      ensures res.Success? ==>
        Book(old(State()), patientId, doctorId, date, time, appointmentId) == Success(State())
        && res.value == appointments[|appointments| - 1]
      ensures Valid()
    {
      var p := FindPatient(patientId);
      var d := FindDoctor(doctorId);
      if p.None? {
        return Failure(PatientNotFound);
      }
      if d.None? {
        return Failure(DoctorNotFound);
      }
      var dateTime := Slot(date, time);
      if !IsAvailable(doctors[d.value], dateTime) {
        return Failure(DoctorNotAvailable);
      }
      var a := Appointment(appointmentId, p.value, d.value, date, time, Scheduled);
      var patient := patients[p.value];
      patients := patients[p.value := patient.(appointmentList := patient.appointmentList + [|appointments|])];
      var doctor := doctors[d.value];
      doctors := doctors[d.value := doctor.(schedule := doctor.schedule + [dateTime])];
      appointments := appointments + [a];
      BookPreserves(old(State()), patientId, doctorId, date, time, appointmentId);
      return Success(a);
    }

    /** `Appointment.cancel` on the appointment at position `k`: the status is
        written, then `schedule.remove` scans for the slot; when it is absent
        the `ValueError` becomes a failure, with the status already written. */
    method Cancel(k: nat) returns (res: Result<string, Error>)
      requires Valid() && k < |appointments|
      modifies this
      ensures State() == CancelAt(old(State()), k).after
      ensures res.Success? <==> CancelAt(old(State()), k).Done?
      ensures res.Success? ==> res.value == "Appointment " + appointments[k].appointmentId + " cancelled."
      ensures res.Failure? ==> res.error == SlotNotInSchedule
      ensures Valid()
    {
      var a := appointments[k];
      appointments := appointments[k := a.(status := Cancelled)];
      var doctor := doctors[a.doctor];
      var dateTime := SlotOf(a);
      var i := LinearSearch(doctor.schedule, dateTime);
      if i.None? {
        res := Failure(SlotNotInSchedule);
      } else {
        doctors := doctors[a.doctor := doctor.(schedule := doctor.schedule[..i.value] + doctor.schedule[i.value + 1..])];
        res := Success("Appointment " + a.appointmentId + " cancelled.");
      }
      CancelAtKeepsLinks(old(State()), k);
    }

    /** `cancel_appointment`: an unknown identifier is a failure that changes
        nothing; otherwise the first appointment with it is cancelled. */
    method CancelAppointment(appointmentId: string) returns (res: Result<string, Error>)
      requires Valid()
      modifies this
      ensures State() == Clinic.CancelAppointment(old(State()), appointmentId).after
      ensures res.Success? <==> Clinic.CancelAppointment(old(State()), appointmentId).Done?
      ensures res.Failure? ==> res.error == Clinic.CancelAppointment(old(State()), appointmentId).error
      ensures res.Success? ==> res.value == "Appointment " + appointmentId + " cancelled."
      ensures Valid()
    {
      var k := FindAppointment(appointmentId);
      if k.None? {
        return Failure(AppointmentNotFound);
      }
      res := Cancel(k.value);
    }

    /** `Appointment.confirm` on the appointment at position `k`. */
    method Confirm(k: nat) returns (message: string)
      requires Valid() && k < |appointments|
      modifies this
      ensures State() == Clinic.Confirm(old(State()), k)
      ensures message == "Appointment " + appointments[k].appointmentId + " confirmed."
      ensures Valid()
    {
      appointments := appointments[k := appointments[k].(status := Confirmed)];
      message := "Appointment " + appointments[k].appointmentId + " confirmed.";
      ConfirmPreserves(old(State()), k);
    }

    /** The `except` branch of `load_data`. */
    method Reset()
      modifies this
      ensures State() == EmptyRegistry && Valid()
    {
      patients := [];
      doctors := [];
      appointments := [];
    }

    /** `load_data`, given the decoded document (None when the file is absent
        or not valid JSON). Returns true when the uncaught `StopIteration`
        escapes; the lists are then left as the loop had them, and the object
        is never handed out. Otherwise the lists hold what `Load` restores, or
        are empty. */
    method LoadData(stored: Option<Snapshot>) returns (crashed: bool)
      modifies this
      ensures crashed <==> Load(stored).Uncaught?
      ensures !crashed ==> State() == LoadedRegistry(Load(stored)) && Valid()
    {
      if stored.None? || stored.value.patients.None? {
        Reset();
        return false;
      }
      var snap := stored.value;
      var ok := RecreatePatients(snap.patients.value);
      if !ok || snap.doctors.None? {
        Reset();
        return false;
      }
      ok := RecreateDoctors(snap.doctors.value);
      if !ok || snap.appointments.None? {
        Reset();
        return false;
      }
      var outcome := RecreateAppointments(snap.appointments.value);
      if outcome.KeyMissing? {
        Reset();
        return false;
      }
      if outcome.NoMatch? {
        return true;
      }
      LoadRestores(stored);
      return false;
    }

    /** The patients loop of `load_data`. Returns false at the first record
        with a missing key (the `KeyError`). */
    method RecreatePatients(precs: seq<PatientRecord>) returns (ok: bool)
      modifies this
      ensures ok <==> PatientsFrom(precs).Some?
      ensures ok ==> patients == PatientsFrom(precs).value
      ensures doctors == old(doctors) && appointments == old(appointments)
    {
      patients := [];
      var i := 0;
      while i < |precs|
        invariant 0 <= i <= |precs|
        invariant PatientsFrom(precs[..i]) == Some(patients)
        invariant doctors == old(doctors) && appointments == old(appointments)
      {
        var rec := precs[i];
        assert precs[..i + 1][..i] == precs[..i];
        if rec.name.None? || rec.age.None? || rec.gender.None? || rec.patientId.None? {
          assert PatientFrom(precs[i]).None?;
          return false;
        }
        patients := patients + [NewPatient(rec.name.value, rec.age.value, rec.gender.value, rec.patientId.value)];
        i := i + 1;
      }
      assert precs[..i] == precs;
      return true;
    }

    /** The doctors loop of `load_data`: the saved schedule is copied as it is. */
    method RecreateDoctors(drecs: seq<DoctorRecord>) returns (ok: bool)
      modifies this
      ensures ok <==> DoctorsFrom(drecs).Some?
      ensures ok ==> doctors == DoctorsFrom(drecs).value
      ensures patients == old(patients) && appointments == old(appointments)
    {
      doctors := [];
      var i := 0;
      while i < |drecs|
        invariant 0 <= i <= |drecs|
        invariant DoctorsFrom(drecs[..i]) == Some(doctors)
        invariant patients == old(patients) && appointments == old(appointments)
      {
        var rec := drecs[i];
        assert drecs[..i + 1][..i] == drecs[..i];
        if rec.name.None? || rec.age.None? || rec.gender.None? || rec.specialty.None?
           || rec.doctorId.None? || rec.schedule.None? {
          assert DoctorFrom(drecs[i]).None?;
          return false;
        }
        var doctor := NewDoctor(rec.name.value, rec.age.value, rec.gender.value, rec.specialty.value, rec.doctorId.value);
        doctors := doctors + [doctor.(schedule := rec.schedule.value)];
        i := i + 1;
      }
      assert drecs[..i] == drecs;
      return true;
    }

    /** One iteration of the appointments loop of `load_data`. The patient is
        looked up before the doctor; each generator reads the saved identifier
        only when it has an entity to compare it with. */
    method RelinkRecord(rec: AppointmentRecord) returns (outcome: Relink)
      modifies this
      ensures outcome == RelinkOne(old(patients), doctors, old(appointments), rec)
      ensures outcome.Linked? ==> patients == outcome.patients && appointments == outcome.appointments
      ensures doctors == old(doctors)
    {
      if |patients| == 0 {
        return NoMatch;
      }
      if rec.patientId.None? {
        return KeyMissing;
      }
      var p := FindPatient(rec.patientId.value);
      if p.None? {
        return NoMatch;
      }
      if |doctors| == 0 {
        return NoMatch;
      }
      if rec.doctorId.None? {
        return KeyMissing;
      }
      var d := FindDoctor(rec.doctorId.value);
      if d.None? {
        return NoMatch;
      }
      if !Complete(rec) {
        return KeyMissing;
      }
      var a := Appointment(rec.appointmentId.value, p.value, d.value, rec.date.value, rec.time.value, rec.status.value);
      var patient := patients[p.value];
      patients := patients[p.value := patient.(appointmentList := patient.appointmentList + [|appointments|])];
      appointments := appointments + [a];
      return Linked(patients, appointments);
    }

    /** The appointments loop of `load_data`. Each record's patient and doctor
        are found with a bare `next`, and `Appointment.__init__` appends the
        new appointment to its patient's list. Returns how the loop ended:
        `Linked` with the lists it built, `KeyMissing` on a `KeyError`,
        `NoMatch` on the `StopIteration`. */
    method RecreateAppointments(arecs: seq<AppointmentRecord>) returns (outcome: Relink)
      modifies this
      ensures outcome == RelinkAll(old(patients), doctors, arecs)
      ensures outcome.Linked? ==> patients == outcome.patients && appointments == outcome.appointments
      ensures doctors == old(doctors)
    {
      appointments := [];
      var i := 0;
      while i < |arecs|
        invariant 0 <= i <= |arecs|
        invariant doctors == old(doctors)
        invariant RelinkAll(old(patients), doctors, arecs[..i]) == Linked(patients, appointments)
      {
        RelinkAllPrefixStep(old(patients), doctors, arecs, i);
        var step := RelinkRecord(arecs[i]);
        if !step.Linked? {
          RelinkAllStops(old(patients), doctors, arecs, i + 1);
          return step;
        }
        i := i + 1;
      }
      assert arecs[..i] == arecs;
      return Linked(patients, appointments);
    }
  }
}
