/** The registry of `HospitalSystem` as a value, and its operations as
    functions from one registry to the next. These are the specification the
    imperative `HospitalSystem` class is proved against, and the lemmas here
    state what the operations promise: which error comes first, that a failed
    booking changes nothing, that booking and cancelling keep every doctor's
    schedule equal to the slots of that doctor's live appointments, and that
    cancelling a fresh booking gives the slot back. */
module Clinic {
  import opened Util
  import opened Entities

  /** The three insertion-ordered lists of `HospitalSystem`. */
  datatype Registry = Registry(patients: seq<Patient>, doctors: seq<Doctor>, appointments: seq<Appointment>)

  const EmptyRegistry := Registry([], [], [])

  /** The `ValueError`s the registry raises, one per message. */
  datatype Error =
    | PatientNotFound      // "Patient not found."
    | DoctorNotFound       // "Doctor not found."
    | DoctorNotAvailable   // "Doctor not available at this time."
    | AppointmentNotFound  // "Appointment not found."
    | SlotNotInSchedule    // `list.remove` finds no such slot in the doctor's schedule

  /** Cancelling can fail after it has already written the status, so a
      failure carries the registry as the exception leaves it. */
  datatype Outcome = Done(after: Registry) | Failed(error: Error, after: Registry)

  function PatientIds(ps: seq<Patient>): seq<string> {
    seq(|ps|, i requires 0 <= i < |ps| => ps[i].patientId)
  }

  function DoctorIds(ds: seq<Doctor>): seq<string> {
    seq(|ds|, i requires 0 <= i < |ds| => ds[i].doctorId)
  }

  function AppointmentIds(apps: seq<Appointment>): seq<string> {
    seq(|apps|, i requires 0 <= i < |apps| => apps[i].appointmentId)
  }

  // ---------------------------------------------------------------------------
  // What a well-formed registry looks like

  /** Every appointment refers to a patient and a doctor of the registry
      (the Python objects always exist; here the indices must be in range). */
  ghost predicate RefsValid(r: Registry) {
    forall k :: 0 <= k < |r.appointments| ==>
      r.appointments[k].patient < |r.patients| && r.appointments[k].doctor < |r.doctors|
  }

  /** The positions of patient `p`'s appointments, in booking order. */
  function AppointmentsOf(apps: seq<Appointment>, p: nat): seq<nat>
    decreases |apps|
  {
    if apps == [] then []
    else AppointmentsOf(apps[..|apps| - 1], p) + (if apps[|apps| - 1].patient == p then [|apps| - 1] else [])
  }

  /** Each patient's appointment list is exactly that patient's appointments,
      cancelled ones included, in the order of the registry's list. */
  ghost predicate BackRefsValid(r: Registry) {
    forall p :: 0 <= p < |r.patients| ==> r.patients[p].appointmentList == AppointmentsOf(r.appointments, p)
  }

  ghost predicate WellLinked(r: Registry) {
    RefsValid(r) && BackRefsValid(r)
  }

  /** The slot an appointment holds in doctor `d`'s schedule, if any. */
  function Contribution(a: Appointment, d: nat): multiset<string> {
    if IsActive(a) && a.doctor == d then multiset{SlotOf(a)} else multiset{}
  }

  /** The slots of doctor `d`'s appointments that are not cancelled. */
  function ActiveSlots(apps: seq<Appointment>, d: nat): multiset<string>
    decreases |apps|
  {
    if apps == [] then multiset{}
    else ActiveSlots(apps[..|apps| - 1], d) + Contribution(apps[|apps| - 1], d)
  }

  /** A slot is in a doctor's schedule exactly when one live appointment of
      that doctor holds it, and no slot is listed twice. */
  ghost predicate SchedulesMatch(r: Registry) {
    forall d :: 0 <= d < |r.doctors| ==>
      NoDup(r.doctors[d].schedule) && multiset(r.doctors[d].schedule) == ActiveSlots(r.appointments, d)
  }

  ghost predicate Consistent(r: Registry) {
    WellLinked(r) && SchedulesMatch(r)
  }

  // ---------------------------------------------------------------------------
  // Operations

  /** `HospitalSystem.add_patient`, with the new identifier passed in. */
  function AddPatient(r: Registry, name: string, age: int, gender: string, patientId: string): (r': Registry)
    ensures |r'.patients| == |r.patients| + 1 && r'.patients[..|r.patients|] == r.patients
    ensures r'.patients[|r.patients|].patientId == patientId
    ensures r'.patients[|r.patients|].person == Person(name, age, gender)
    ensures r'.patients[|r.patients|].appointmentList == []
    ensures r'.doctors == r.doctors && r'.appointments == r.appointments
  {
    r.(patients := r.patients + [NewPatient(name, age, gender, patientId)])
  }

  /** `HospitalSystem.add_doctor`, with the new identifier passed in. */
  function AddDoctor(r: Registry, name: string, age: int, gender: string, specialty: string, doctorId: string): (r': Registry)
    ensures |r'.doctors| == |r.doctors| + 1 && r'.doctors[..|r.doctors|] == r.doctors
    ensures r'.doctors[|r.doctors|].doctorId == doctorId
    ensures r'.doctors[|r.doctors|].person == Person(name, age, gender)
    ensures r'.doctors[|r.doctors|].specialty == specialty
    ensures r'.doctors[|r.doctors|].schedule == []
    ensures r'.patients == r.patients && r'.appointments == r.appointments
  {
    r.(doctors := r.doctors + [NewDoctor(name, age, gender, specialty, doctorId)])
  }

  /** `HospitalSystem.book_appointment`, with the new identifier passed in.
      The patient is looked up before the doctor, and the slot is checked last. */
  function Book(r: Registry, patientId: string, doctorId: string, date: string, time: string, appointmentId: string)
    : (res: Result<Registry, Error>)
    ensures res == Failure(PatientNotFound) <==> patientId !in PatientIds(r.patients)
    ensures res == Failure(DoctorNotFound) <==>
      patientId in PatientIds(r.patients) && doctorId !in DoctorIds(r.doctors)
    ensures res == Failure(DoctorNotAvailable) <==>
      patientId in PatientIds(r.patients) && doctorId in DoctorIds(r.doctors) &&
      !IsAvailable(r.doctors[FirstIndex(DoctorIds(r.doctors), doctorId).value], Slot(date, time))
    ensures res.Success? <==>
      patientId in PatientIds(r.patients) && doctorId in DoctorIds(r.doctors) &&
      IsAvailable(r.doctors[FirstIndex(DoctorIds(r.doctors), doctorId).value], Slot(date, time))
    ensures res.Success? ==>
      var p := FirstIndex(PatientIds(r.patients), patientId).value;
      var d := FirstIndex(DoctorIds(r.doctors), doctorId).value;
      var r' := res.value;
      // one new appointment, at the end, naming the first matching patient and doctor
      && r'.appointments == r.appointments + [Appointment(appointmentId, p, d, date, time, Scheduled)]
      // appended to that patient's list; no other patient changes
      && |r'.patients| == |r.patients|
      && r'.patients[p] == r.patients[p].(appointmentList := r.patients[p].appointmentList + [|r.appointments|])
      && (forall q :: 0 <= q < |r.patients| && q != p ==> r'.patients[q] == r.patients[q])
      // its slot appended to that doctor's schedule; no other doctor changes
      && |r'.doctors| == |r.doctors|
      && r'.doctors[d] == r.doctors[d].(schedule := r.doctors[d].schedule + [Slot(date, time)])
      && (forall e :: 0 <= e < |r.doctors| && e != d ==> r'.doctors[e] == r.doctors[e])
  {
    var pi := FirstIndex(PatientIds(r.patients), patientId);
    var di := FirstIndex(DoctorIds(r.doctors), doctorId);
    if pi.None? then Failure(PatientNotFound)
    else if di.None? then Failure(DoctorNotFound)
    else
      var patient := r.patients[pi.value];
      var doctor := r.doctors[di.value];
      var dateTime := Slot(date, time);
      if !IsAvailable(doctor, dateTime) then Failure(DoctorNotAvailable)
      else
        var k := |r.appointments|;
        Success(Registry(
          r.patients[pi.value := patient.(appointmentList := patient.appointmentList + [k])],
          r.doctors[di.value := doctor.(schedule := doctor.schedule + [dateTime])],
          r.appointments + [Appointment(appointmentId, pi.value, di.value, date, time, Scheduled)]))
  }

  /** `Appointment.cancel` on the appointment at position `k`: the status is
      written first, then the slot is removed from the doctor's schedule, which
      fails when the slot is not there (the status write stays). */
  function CancelAt(r: Registry, k: nat): (o: Outcome)
    requires k < |r.appointments| && r.appointments[k].doctor < |r.doctors|
    ensures var a := r.appointments[k];
      && o.after.appointments == r.appointments[k := a.(status := Cancelled)]
      && o.after.patients == r.patients
      && (o.Done? <==> SlotOf(a) in r.doctors[a.doctor].schedule)
      && (o.Failed? ==> o.error == SlotNotInSchedule && o.after.doctors == r.doctors)
      && (o.Done? ==>
            && |o.after.doctors| == |r.doctors|
            && o.after.doctors[a.doctor] ==
                 r.doctors[a.doctor].(schedule := RemoveFirst(r.doctors[a.doctor].schedule, SlotOf(a)))
            && (forall e :: 0 <= e < |r.doctors| && e != a.doctor ==> o.after.doctors[e] == r.doctors[e]))
  {
    var a := r.appointments[k];
    var marked := r.(appointments := r.appointments[k := a.(status := Cancelled)]);
    var doctor := r.doctors[a.doctor];
    var dateTime := SlotOf(a);
    if dateTime in doctor.schedule then
      Done(marked.(doctors := r.doctors[a.doctor := doctor.(schedule := RemoveFirst(doctor.schedule, dateTime))]))
    else
      Failed(SlotNotInSchedule, marked)
  }

  /** `HospitalSystem.cancel_appointment`: an unknown identifier changes nothing;
      otherwise the first appointment with that identifier is cancelled. */
  function CancelAppointment(r: Registry, appointmentId: string): (o: Outcome)
    requires RefsValid(r)
    ensures o == Failed(AppointmentNotFound, r) <==> appointmentId !in AppointmentIds(r.appointments)
    ensures appointmentId in AppointmentIds(r.appointments) ==>
      o == CancelAt(r, FirstIndex(AppointmentIds(r.appointments), appointmentId).value)
  {
    match FirstIndex(AppointmentIds(r.appointments), appointmentId)
    case None => Failed(AppointmentNotFound, r)
    case Some(k) => CancelAt(r, k)
  }

  /** `Appointment.confirm` on the appointment at position `k`: the status is
      overwritten, whatever it was. */
  function Confirm(r: Registry, k: nat): (r': Registry)
    requires k < |r.appointments|
    ensures r'.patients == r.patients && r'.doctors == r.doctors
    ensures |r'.appointments| == |r.appointments|
    ensures r'.appointments[k].status == Confirmed
    ensures forall j :: 0 <= j < |r.appointments| && j != k ==> r'.appointments[j] == r.appointments[j]
    ensures r'.appointments[k] == r.appointments[k].(status := Confirmed)
  {
    r.(appointments := r.appointments[k := r.appointments[k].(status := Confirmed)])
  }

  // ---------------------------------------------------------------------------
  // Billing

  const ConsultationFee: real := 3000.0

  /** The content of the receipt `generate_bill` renders: who, when, and the
      fee lines. `additionalFees` is the "Additional Service Fees" line, present
      only when it is printed. */
  datatype Receipt = Receipt(
    appointmentId: string,
    patientName: string,
    patientId: string,
    doctorName: string,
    doctorId: string,
    date: string,
    time: string,
    consultationFee: real,
    additionalFees: Option<real>,
    total: real)

  /** `HospitalSystem.generate_bill`. Reads the registry and changes nothing. */
  function GenerateBill(r: Registry, appointmentId: string, additionalFees: real): (res: Result<Receipt, Error>)
    requires RefsValid(r)
    ensures res.Failure? <==> appointmentId !in AppointmentIds(r.appointments)
    ensures res.Failure? ==> res.error == AppointmentNotFound
    ensures res.Success? ==>
      var a := r.appointments[FirstIndex(AppointmentIds(r.appointments), appointmentId).value];
      && res.value.appointmentId == appointmentId
      && res.value.patientName == r.patients[a.patient].person.name
      && res.value.patientId == r.patients[a.patient].patientId
      && res.value.doctorName == r.doctors[a.doctor].person.name
      && res.value.doctorId == r.doctors[a.doctor].doctorId
      && res.value.date == a.date && res.value.time == a.time
      && res.value.consultationFee == 3000.0
      && res.value.total == 3000.0 + additionalFees
      && (res.value.additionalFees.Some? <==> additionalFees > 0.0)
      && (res.value.additionalFees.Some? ==> res.value.additionalFees.value == additionalFees)
  {
    match FirstIndex(AppointmentIds(r.appointments), appointmentId)
    case None => Failure(AppointmentNotFound)
    case Some(k) =>
      var a := r.appointments[k];
      var patient := r.patients[a.patient];
      var doctor := r.doctors[a.doctor];
      Success(Receipt(
        a.appointmentId, patient.person.name, patient.patientId, doctor.person.name, doctor.doctorId,
        a.date, a.time, ConsultationFee,
        if additionalFees > 0.0 then Some(additionalFees) else None,
        ConsultationFee + additionalFees))
  }

  /** The printed fee lines add up to the printed total exactly when the extra
      fee is not negative: a negative fee prints no line yet lowers the total. */
  lemma BillLinesAddUp(r: Registry, appointmentId: string, additionalFees: real)
    requires RefsValid(r) && appointmentId in AppointmentIds(r.appointments)
    ensures var b := GenerateBill(r, appointmentId, additionalFees).value;
      b.total == b.consultationFee + (if b.additionalFees.Some? then b.additionalFees.value else 0.0)
      <==> additionalFees >= 0.0
  {
  }

  // ---------------------------------------------------------------------------
  // Facts about the derived views

  lemma {:induction false} AppointmentsOfBeyond(apps: seq<Appointment>, p: nat)
    requires forall k :: 0 <= k < |apps| ==> apps[k].patient < p
    ensures AppointmentsOf(apps, p) == []
  {
    if apps != [] {
      AppointmentsOfBeyond(apps[..|apps| - 1], p);
    }
  }

  lemma {:induction false} ActiveSlotsBeyond(apps: seq<Appointment>, d: nat)
    requires forall k :: 0 <= k < |apps| ==> apps[k].doctor < d
    ensures ActiveSlots(apps, d) == multiset{}
  {
    if apps != [] {
      ActiveSlotsBeyond(apps[..|apps| - 1], d);
    }
  }

  lemma AppendUnfold(apps: seq<Appointment>, a: Appointment, p: nat, d: nat)
    ensures AppointmentsOf(apps + [a], p) == AppointmentsOf(apps, p) + (if a.patient == p then [|apps|] else [])
    ensures ActiveSlots(apps + [a], d) == ActiveSlots(apps, d) + Contribution(a, d)
  {
    assert (apps + [a])[..|apps|] == apps;
  }

  /** Replacing an appointment by one with the same patient leaves every
      patient's appointment positions as they were. */
  lemma {:induction false} AppointmentsOfUpdate(apps: seq<Appointment>, k: nat, a: Appointment, p: nat)
    requires k < |apps| && a.patient == apps[k].patient
    ensures AppointmentsOf(apps[k := a], p) == AppointmentsOf(apps, p)
    decreases |apps|
  {
    var n := |apps| - 1;
    if k < n {
      assert apps[k := a][..n] == apps[..n][k := a];
      AppointmentsOfUpdate(apps[..n], k, a, p);
    } else {
      assert apps[k := a][..n] == apps[..n];
    }
  }

  /** Replacing an appointment trades its slot for the replacement's slot. */
  lemma {:induction false} ActiveSlotsUpdate(apps: seq<Appointment>, k: nat, a: Appointment, d: nat)
    requires k < |apps|
    ensures ActiveSlots(apps[k := a], d) + Contribution(apps[k], d) == ActiveSlots(apps, d) + Contribution(a, d)
    decreases |apps|
  {
    var n := |apps| - 1;
    if k < n {
      ActiveSlotsUpdate(apps[..n], k, a, d);
      ActiveSlotsUpdateStep(apps, k, a, d);
    } else {
      assert apps[k := a][..n] == apps[..n];
    }
  }

  /** The inductive step of `ActiveSlotsUpdate`: an update before the last
      appointment. */
  lemma ActiveSlotsUpdateStep(apps: seq<Appointment>, k: nat, a: Appointment, d: nat)
    requires k < |apps| - 1
    requires var n := |apps| - 1;
      ActiveSlots(apps[..n][k := a], d) + Contribution(apps[k], d) == ActiveSlots(apps[..n], d) + Contribution(a, d)
    ensures ActiveSlots(apps[k := a], d) + Contribution(apps[k], d) == ActiveSlots(apps, d) + Contribution(a, d)
  {
    var n := |apps| - 1;
    var updated := apps[k := a];
    assert updated[..n] == apps[..n][k := a];
    assert updated[n] == apps[n];
    var cn := Contribution(apps[n], d);
    var x := ActiveSlots(apps[..n][k := a], d);
    var y := ActiveSlots(apps[..n], d);
    assert ActiveSlots(updated, d) == x + cn;
    assert ActiveSlots(apps, d) == y + cn;
    MultisetShift(x, y, Contribution(a, d), Contribution(apps[k], d), cn);
  }

  lemma MultisetShift<T>(x: multiset<T>, y: multiset<T>, ca: multiset<T>, ck: multiset<T>, cn: multiset<T>)
    requires x + ck == y + ca
    ensures (x + cn) + ck == (y + cn) + ca
  {
    forall t
      ensures ((x + cn) + ck)[t] == ((y + cn) + ca)[t]
    {
      assert (x + ck)[t] == (y + ca)[t];
    }
  }

  // ---------------------------------------------------------------------------
  // Registration

  /** Registering a patient keeps the registry well linked and consistent. */
  lemma AddPatientPreserves(r: Registry, name: string, age: int, gender: string, patientId: string)
    requires WellLinked(r)
    ensures WellLinked(AddPatient(r, name, age, gender, patientId))
    ensures SchedulesMatch(r) ==> SchedulesMatch(AddPatient(r, name, age, gender, patientId))
  {
    AppointmentsOfBeyond(r.appointments, |r.patients|);
  }

  /** Registering a doctor keeps the registry well linked and consistent. */
  lemma AddDoctorPreserves(r: Registry, name: string, age: int, gender: string, specialty: string, doctorId: string)
    requires WellLinked(r)
    ensures WellLinked(AddDoctor(r, name, age, gender, specialty, doctorId))
    ensures SchedulesMatch(r) ==> SchedulesMatch(AddDoctor(r, name, age, gender, specialty, doctorId))
  {
    ActiveSlotsBeyond(r.appointments, |r.doctors|);
  }

  // ---------------------------------------------------------------------------
  // Booking

  /** A successful booking keeps the registry well linked, and keeps every
      schedule equal to the slots of its doctor's live appointments; in
      particular a duplicate-free schedule stays duplicate-free. */
  lemma BookPreserves(r: Registry, patientId: string, doctorId: string, date: string, time: string, appointmentId: string)
    requires WellLinked(r)
    requires Book(r, patientId, doctorId, date, time, appointmentId).Success?
    ensures WellLinked(Book(r, patientId, doctorId, date, time, appointmentId).value)
    ensures SchedulesMatch(r) ==> SchedulesMatch(Book(r, patientId, doctorId, date, time, appointmentId).value)
  {
    var r' := Book(r, patientId, doctorId, date, time, appointmentId).value;
    var p := FirstIndex(PatientIds(r.patients), patientId).value;
    var d := FirstIndex(DoctorIds(r.doctors), doctorId).value;
    var a := Appointment(appointmentId, p, d, date, time, Scheduled);
    forall q | 0 <= q < |r'.patients|
      ensures r'.patients[q].appointmentList == AppointmentsOf(r'.appointments, q)
    {
      AppendUnfold(r.appointments, a, q, 0);
    }
    if SchedulesMatch(r) {
      forall e | 0 <= e < |r'.doctors|
        ensures NoDup(r'.doctors[e].schedule) && multiset(r'.doctors[e].schedule) == ActiveSlots(r'.appointments, e)
      {
        AppendUnfold(r.appointments, a, 0, e);
        if e == d {
          AppendNoDup(r.doctors[d].schedule, Slot(date, time));
        }
      }
    }
  }

  /** Booking then cancelling the new appointment (under an identifier no
      earlier appointment has) frees the slot again, restores every doctor's
      schedule, and leaves the appointment in the registry as cancelled. */
  lemma BookCancelRoundTrip(r: Registry, patientId: string, doctorId: string, date: string, time: string, appointmentId: string)
    requires RefsValid(r)
    requires Book(r, patientId, doctorId, date, time, appointmentId).Success?
    requires appointmentId !in AppointmentIds(r.appointments)
    ensures var booked := Book(r, patientId, doctorId, date, time, appointmentId).value;
      var d := FirstIndex(DoctorIds(r.doctors), doctorId).value;
      && IsAvailable(r.doctors[d], Slot(date, time))
      && !IsAvailable(booked.doctors[d], Slot(date, time))
      && RefsValid(booked)
      && CancelAppointment(booked, appointmentId) ==
           Done(Registry(booked.patients, r.doctors,
                         r.appointments + [booked.appointments[|r.appointments|].(status := Cancelled)]))
  {
    var booked := Book(r, patientId, doctorId, date, time, appointmentId).value;
    var n := |r.appointments|;
    var a := booked.appointments[n];
    assert booked.appointments == r.appointments + [a];
    BookKeepsRefs(r, patientId, doctorId, date, time, appointmentId);
    CancelNewest(r.appointments, r.doctors, booked, a);
  }

  /** Cancelling the appointment last added, with a fresh identifier and a
      slot freshly appended to its doctor's schedule, undoes the schedule
      change and leaves the appointment marked cancelled. */
  lemma CancelNewest(apps: seq<Appointment>, doctors: seq<Doctor>, r: Registry, a: Appointment)
    requires RefsValid(r)
    requires r.appointments == apps + [a]
    requires a.appointmentId !in AppointmentIds(apps)
    requires && a.doctor < |doctors| == |r.doctors|
      && SlotOf(a) !in doctors[a.doctor].schedule
      && r.doctors[a.doctor] == doctors[a.doctor].(schedule := doctors[a.doctor].schedule + [SlotOf(a)])
      && forall e :: 0 <= e < |doctors| && e != a.doctor ==> r.doctors[e] == doctors[e]
    ensures CancelAppointment(r, a.appointmentId) ==
      Done(Registry(r.patients, doctors, apps + [a.(status := Cancelled)]))
  {
    var n := |apps|;
    CancelFindsNewest(apps, r, a);
    assert CancelAppointment(r, a.appointmentId) == CancelAt(r, n);
    CancelUndoesSlot(r, n, doctors);
    assert r.appointments[n := a.(status := Cancelled)] == apps + [a.(status := Cancelled)];
  }

  /** A booking names an existing patient and doctor. */
  lemma BookKeepsRefs(r: Registry, patientId: string, doctorId: string, date: string, time: string, appointmentId: string)
    requires RefsValid(r)
    requires Book(r, patientId, doctorId, date, time, appointmentId).Success?
    ensures RefsValid(Book(r, patientId, doctorId, date, time, appointmentId).value)
  {
    var r' := Book(r, patientId, doctorId, date, time, appointmentId).value;
    assert forall k :: 0 <= k < |r.appointments| ==> r'.appointments[k] == r.appointments[k];
  }

  /** Cancelling an appointment whose slot was the last one appended to its
      doctor's schedule, and absent before, gives back the earlier doctors. */
  lemma CancelUndoesSlot(r: Registry, k: nat, doctors: seq<Doctor>)
    requires k < |r.appointments|
    requires var d := r.appointments[k].doctor;
      && d < |doctors| == |r.doctors|
      && SlotOf(r.appointments[k]) !in doctors[d].schedule
      && r.doctors[d] == doctors[d].(schedule := doctors[d].schedule + [SlotOf(r.appointments[k])])
      && forall e :: 0 <= e < |doctors| && e != d ==> r.doctors[e] == doctors[e]
    ensures CancelAt(r, k).Done? && CancelAt(r, k).after.doctors == doctors
  {
    var a := r.appointments[k];
    var o := CancelAt(r, k);
    RemoveFirstAfterAppend(doctors[a.doctor].schedule, SlotOf(a));
    assert o.after.doctors[a.doctor] == doctors[a.doctor];
  }

  /** The first appointment with the identifier of an appointment appended
      under a fresh identifier is that appointment. */
  lemma CancelFindsNewest(apps: seq<Appointment>, r: Registry, a: Appointment)
    requires RefsValid(r)
    requires r.appointments == apps + [a]
    requires a.appointmentId !in AppointmentIds(apps)
    ensures FirstIndex(AppointmentIds(r.appointments), a.appointmentId) == Some(|apps|)
  {
    var ids := AppointmentIds(r.appointments);
    assert ids == AppointmentIds(apps) + [a.appointmentId];
    assert FirstIndex(ids, a.appointmentId) == Some(|apps|);
  }

  // ---------------------------------------------------------------------------
  // Cancelling and confirming

  /** Cancelling keeps the registry well linked, whether or not the slot removal
      succeeds. */
  lemma CancelAtKeepsLinks(r: Registry, k: nat)
    requires WellLinked(r) && k < |r.appointments|
    ensures WellLinked(CancelAt(r, k).after)
  {
    var a := r.appointments[k];
    forall p | 0 <= p < |r.patients|
      ensures AppointmentsOf(r.appointments[k := a.(status := Cancelled)], p) == AppointmentsOf(r.appointments, p)
    {
      AppointmentsOfUpdate(r.appointments, k, a.(status := Cancelled), p);
    }
  }

  /** Cancelling a live appointment of a consistent registry always finds its
      slot, and leaves the registry consistent. */
  lemma CancelLivePreserves(r: Registry, k: nat)
    requires Consistent(r) && k < |r.appointments| && IsActive(r.appointments[k])
    ensures CancelAt(r, k).Done?
    ensures Consistent(CancelAt(r, k).after)
  {
    var a := r.appointments[k];
    var d := a.doctor;
    assert d < |r.doctors|;
    assert multiset(r.doctors[d].schedule) == ActiveSlots(r.appointments, d);
    CancelledSlots(r.appointments, k, d);
    assert SlotOf(a) in multiset(r.doctors[d].schedule);
    CancelAtKeepsLinks(r, k);
    var r' := CancelAt(r, k).after;
    forall e | 0 <= e < |r'.doctors|
      ensures NoDup(r'.doctors[e].schedule) && multiset(r'.doctors[e].schedule) == ActiveSlots(r'.appointments, e)
    {
      CancelLiveScheduleAt(r, k, e);
    }
  }

  /** Cancelling a live appointment takes exactly its slot out of its doctor's
      live slots, and nothing out of any other doctor's. */
  lemma CancelledSlots(apps: seq<Appointment>, k: nat, e: nat)
    requires k < |apps| && IsActive(apps[k])
    ensures var c := apps[k].(status := Cancelled);
      && (e == apps[k].doctor ==> ActiveSlots(apps, e) == ActiveSlots(apps[k := c], e) + multiset{SlotOf(apps[k])})
      && (e != apps[k].doctor ==> ActiveSlots(apps, e) == ActiveSlots(apps[k := c], e))
  {
    var c := apps[k].(status := Cancelled);
    ActiveSlotsUpdate(apps, k, c, e);
    assert Contribution(c, e) == multiset{};
    if e != apps[k].doctor {
      assert Contribution(apps[k], e) == multiset{};
      MultisetCancel(ActiveSlots(apps[k := c], e), ActiveSlots(apps, e), multiset{});
    }
  }

  /** One doctor's part of `CancelLivePreserves`. */
  lemma CancelLiveScheduleAt(r: Registry, k: nat, e: nat)
    requires k < |r.appointments| && IsActive(r.appointments[k]) && r.appointments[k].doctor < |r.doctors|
    requires e < |r.doctors|
    requires NoDup(r.doctors[e].schedule) && multiset(r.doctors[e].schedule) == ActiveSlots(r.appointments, e)
    requires CancelAt(r, k).Done?
    ensures NoDup(CancelAt(r, k).after.doctors[e].schedule)
    ensures multiset(CancelAt(r, k).after.doctors[e].schedule) == ActiveSlots(CancelAt(r, k).after.appointments, e)
  {
    var a := r.appointments[k];
    var apps' := CancelAt(r, k).after.appointments;
    CancelledSlots(r.appointments, k, e);
    if e == a.doctor {
      var s := r.doctors[e].schedule;
      RemoveFirstNoDup(s, SlotOf(a));
      MultisetTake(ActiveSlots(apps', e), SlotOf(a));
    }
  }

  lemma MultisetCancel<T>(x: multiset<T>, y: multiset<T>, m: multiset<T>)
    requires x + m == y + m
    ensures x == y
  {
    forall t
      ensures x[t] == y[t]
    {
      assert (x + m)[t] == (y + m)[t];
    }
  }

  lemma MultisetTake<T>(x: multiset<T>, t: T)
    ensures (x + multiset{t}) - multiset{t} == x
  {
  }

  /** Cancelling an appointment twice, once its slot is gone: the removal fails
      and, the status being already "Cancelled", nothing changes. */
  lemma CancelTwiceNoSlot(r: Registry, k: nat)
    requires Consistent(r) && k < |r.appointments| && !IsActive(r.appointments[k])
    requires SlotOf(r.appointments[k]) !in r.doctors[r.appointments[k].doctor].schedule
    ensures CancelAt(r, k) == Failed(SlotNotInSchedule, r)
  {
    assert r.appointments[k := r.appointments[k].(status := Cancelled)] == r.appointments;
  }

  /** Cancelling an appointment twice after its slot was booked again by
      another appointment removes that other booking's slot: the schedule no
      longer matches the live appointments. */
  lemma CancelTwiceAfterRebookBreaks(r: Registry, k: nat)
    requires Consistent(r) && k < |r.appointments| && !IsActive(r.appointments[k])
    requires SlotOf(r.appointments[k]) in r.doctors[r.appointments[k].doctor].schedule
    ensures CancelAt(r, k).Done?
    ensures !SchedulesMatch(CancelAt(r, k).after)
  {
    var a := r.appointments[k];
    var d := a.doctor;
    var r' := CancelAt(r, k).after;
    assert r'.appointments == r.appointments;
    var s := r.doctors[d].schedule;
    assert multiset(r'.doctors[d].schedule) == multiset(s) - multiset{SlotOf(a)};
    assert multiset(s)[SlotOf(a)] > 0;
    assert multiset(r'.doctors[d].schedule) != ActiveSlots(r.appointments, d);
  }

  /** The live booking whose slot a second cancel has taken cannot be
      cancelled even once: after cancelling the already cancelled appointment
      `k` again, cancelling the live appointment `j` that holds the same slot
      with the same doctor fails, its status written. */
  lemma StolenSlotCancelFails(r: Registry, k: nat, j: nat)
    requires Consistent(r) && k < |r.appointments| && j < |r.appointments|
    requires !IsActive(r.appointments[k]) && IsActive(r.appointments[j])
    requires r.appointments[j].doctor == r.appointments[k].doctor
    requires SlotOf(r.appointments[j]) == SlotOf(r.appointments[k])
    ensures CancelAt(r, k).Done?
    ensures CancelAt(CancelAt(r, k).after, j).Failed?
    ensures CancelAt(CancelAt(r, k).after, j).error == SlotNotInSchedule
  {
    var d := r.appointments[k].doctor;
    var slot := SlotOf(r.appointments[k]);
    CancelLivePreserves(r, j);
    assert slot in r.doctors[d].schedule;
    var r' := CancelAt(r, k).after;
    assert r'.doctors[d].schedule == RemoveFirst(r.doctors[d].schedule, slot);
    RemoveFirstNoDup(r.doctors[d].schedule, slot);
    assert r'.appointments[j] == r.appointments[j];
  }

  /** Confirming keeps the registry well linked; it keeps the schedules
      consistent exactly when the appointment was not cancelled, because a
      confirmed appointment holds a slot that a cancelled one gave up. */
  lemma ConfirmPreserves(r: Registry, k: nat)
    requires WellLinked(r) && k < |r.appointments|
    ensures WellLinked(Confirm(r, k))
    ensures SchedulesMatch(r) ==> (SchedulesMatch(Confirm(r, k)) <==> IsActive(r.appointments[k]))
  {
    var a := r.appointments[k];
    var c := a.(status := Confirmed);
    var r' := Confirm(r, k);
    forall p | 0 <= p < |r.patients|
      ensures AppointmentsOf(r'.appointments, p) == AppointmentsOf(r.appointments, p)
    {
      AppointmentsOfUpdate(r.appointments, k, c, p);
    }
    if SchedulesMatch(r) {
      if IsActive(a) {
        forall e | 0 <= e < |r.doctors|
          ensures ActiveSlots(r'.appointments, e) == ActiveSlots(r.appointments, e)
        {
          ConfirmedSlots(r.appointments, k, e);
        }
      } else {
        var d := a.doctor;
        assert d < |r.doctors|;
        ConfirmedSlots(r.appointments, k, d);
        var live := ActiveSlots(r.appointments, d);
        assert (live + multiset{SlotOf(a)})[SlotOf(a)] == live[SlotOf(a)] + 1;
        assert multiset(r'.doctors[d].schedule) != ActiveSlots(r'.appointments, d);
      }
    }
  }

  /** Confirming a live appointment leaves every doctor's live slots as they
      were; confirming a cancelled one gives its doctor one more live slot. */
  lemma ConfirmedSlots(apps: seq<Appointment>, k: nat, e: nat)
    requires k < |apps|
    ensures var c := apps[k].(status := Confirmed);
      && (IsActive(apps[k]) ==> ActiveSlots(apps[k := c], e) == ActiveSlots(apps, e))
      && (!IsActive(apps[k]) && e == apps[k].doctor ==>
            ActiveSlots(apps[k := c], e) == ActiveSlots(apps, e) + multiset{SlotOf(apps[k])})
  {
    var c := apps[k].(status := Confirmed);
    ActiveSlotsUpdate(apps, k, c, e);
    if IsActive(apps[k]) {
      assert Contribution(apps[k], e) == Contribution(c, e);
      MultisetCancel(ActiveSlots(apps[k := c], e), ActiveSlots(apps, e), Contribution(c, e));
    } else if e == apps[k].doctor {
      assert Contribution(apps[k], e) == multiset{};
      assert Contribution(c, e) == multiset{SlotOf(apps[k])};
      assert ActiveSlots(apps[k := c], e) + multiset{} == ActiveSlots(apps[k := c], e);
    }
  }
}
