/** The records the clinic registry owns: patients, doctors and appointments.
    Python's `Person` base class becomes a `Person` value embedded in both
    `Patient` and `Doctor`. Object references between records become indices
    into the registry's lists: an appointment names its patient and doctor by
    their positions, and a patient's appointment list holds positions in the
    registry's appointment list (so the patient's list and the registry's list
    share each appointment, as the Python lists share one object). */
module Entities {

  datatype Person = Person(name: string, age: int, gender: string)

  /** `Patient`: `appointmentList` holds positions in the registry's appointment list. */
  datatype Patient = Patient(person: Person, patientId: string, appointmentList: seq<nat>)

  /** `Doctor`: `schedule` is the list of occupied "date time" slot strings. */
  datatype Doctor = Doctor(person: Person, doctorId: string, specialty: string, schedule: seq<string>)

  /** `Appointment`: `patient` and `doctor` are positions in the registry's lists.
      `status` is a free string, since a loaded snapshot may hold any text there. */
  datatype Appointment = Appointment(
    appointmentId: string,
    patient: nat,
    doctor: nat,
    date: string,
    time: string,
    status: string)

  const Scheduled := "Scheduled"
  const Confirmed := "Confirmed"
  const Cancelled := "Cancelled"

  /** `Patient.__init__`: the identifier is passed in instead of generated. */
  function NewPatient(name: string, age: int, gender: string, patientId: string): Patient
  {
    Patient(Person(name, age, gender), patientId, [])
  }

  /** `Doctor.__init__`: the identifier is passed in instead of generated. */
  function NewDoctor(name: string, age: int, gender: string, specialty: string, doctorId: string): Doctor
  {
    Doctor(Person(name, age, gender), doctorId, specialty, [])
  }

  /** The slot string an appointment occupies: `f"{date} {time}"`. */
  function Slot(date: string, time: string): string
  {
    date + " " + time
  }

  function SlotOf(a: Appointment): string {
    Slot(a.date, a.time)
  }

  /** `Doctor.is_available`: a slot is free when it is not in the schedule. */
  predicate IsAvailable(d: Doctor, dateTime: string) {
    dateTime !in d.schedule
  }

  /** An appointment holds its slot unless it has been cancelled. */
  predicate IsActive(a: Appointment) {
    a.status != Cancelled
  }
}
