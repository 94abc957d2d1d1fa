# Clinic registry, modelled in Dafny

This project models the clinic registry `HospitalSystem` of a small hospital
management program, together with the records it owns:

- patients, doctors and appointments;
- registration, booking, cancelling and confirming appointments;
- billing and the text listings;
- rebuilding the registry from a saved snapshot.

The program holds each appointment's patient and doctor as object references.
It never checks that identifiers are unique. The model therefore stores
positions:

- an appointment holds the positions of its patient and doctor in the
  registry's lists;
- a patient's appointment list holds positions in the registry's appointment
  list.

Modules:

- `Util`: first-match lookup (`FirstIndex`, the value a `next(...)` generator
  finds) and the loop that performs it (`LinearSearch`); `list.remove`
  (`RemoveFirst`); `str.join`; decimal rendering of integers. `Split` is not
  part of the program: it inverts `Join`, so that the line structure of the
  text views can be stated.
- `Entities`: the `Person`, `Patient`, `Doctor` and `Appointment` records, the
  slot string `"date time"` and `is_available`.
- `Clinic`: the registry as a value (`Registry`), with one pure transition
  function per operation. It also holds the invariants an operation keeps:
  - `WellLinked`: every reference is in range, and each patient's list is
    exactly that patient's appointments;
  - `SchedulesMatch`: each doctor's schedule is duplicate-free and holds
    exactly the slots of that doctor's appointments that are not cancelled.

  It also holds the lemmas about these functions.
- `Persistence`: `load_data` as a function of the decoded document, and the
  document `save_data` builds.
- `Hospital`: the class `HospitalSystem` with three `seq` fields. Each method
  updates the fields in place and is proved equal to the matching `Clinic`
  function, keeping `Valid()` (= `WellLinked`). `load_data`'s three loops are
  methods with loop invariants that tie them to `Persistence.Load`.
- `Rendering`: the text views; their line structure and empty cases.

Identifiers are parameters instead of random strings. The fee is a `real`.
Python's exceptions become error results:

- `Error.PatientNotFound`, `DoctorNotFound`, `DoctorNotAvailable` and
  `AppointmentNotFound` are the `ValueError`s of booking, cancelling and billing.
- `SlotNotInSchedule` is the `ValueError` of `schedule.remove`, raised
  whenever the appointment's slot is missing from its doctor's schedule
  (`Clinic.CancelAt`). The status write before it stays. That happens on a
  second cancel; on the first cancel of a live booking whose slot another
  appointment's second cancel already removed (`StolenSlotCancelFails`); and
  after loading a saved schedule that lacks the slot, since schedules are
  copied as saved, not recomputed.
- `LoadOutcome.Fallback` is the `except` branch of `load_data`.
- `LoadOutcome.Uncaught` is the `StopIteration` of a bare `next` that finds no
  patient or doctor. The `except` does not catch it.

A dangling identifier in a saved appointment does not reset the registry:
the bare `next` raises `StopIteration`, which the `except` at line 128 does
not list (`LoadCrashIff`). With no saved patients at all, any saved
appointment raises it, before any of its keys is read
(`LoadNoPatientsCrashes`).

Cancelling is not guarded. `CancelTwiceNoSlot` and
`CancelTwiceAfterRebookBreaks` show the two outcomes of a second cancel:

- if the slot is gone, the remove fails after the status write;
- if the slot was booked again, the second cancel silently frees the other
  booking's slot, and schedules no longer match the live appointments.

## Model

| member | source | states |
|---|---|---|
| Util.FirstIndex | Thompson1.Tawana2-POS_Program-ITT103-SP2025.py:147-148 | first match of a key: None exactly when absent; otherwise an index holding the key with no earlier occurrence |
| Util.LinearSearch | Thompson1.Tawana2-POS_Program-ITT103-SP2025.py:147 | the scan of a `next(...)` generator returns the first matching index, or None when nothing matches |
| Util.FirstIndexOfDistinct | Thompson1.Tawana2-POS_Program-ITT103-SP2025.py:121-122 | with distinct keys, looking up the i-th key finds position i |
| Util.RemoveFirst | Thompson1.Tawana2-POS_Program-ITT103-SP2025.py:71 | `list.remove` drops exactly one occurrence, the first: one element shorter, multiset minus that element, order of the rest kept |
| Util.RemoveFirstAfterAppend | Thompson1.Tawana2-POS_Program-ITT103-SP2025.py:160 | appending an absent slot and then removing it restores the schedule |
| Util.RemoveFirstNoDup | Thompson1.Tawana2-POS_Program-ITT103-SP2025.py:71 | removing from a duplicate-free schedule keeps it duplicate-free and leaves no copy of the slot |
| Util.AppendNoDup | Thompson1.Tawana2-POS_Program-ITT103-SP2025.py:156-160 | appending a slot that is not present keeps a schedule duplicate-free |
| Entities.NewPatient | Thompson1.Tawana2-POS_Program-ITT103-SP2025.py:25-28 | `Patient.__init__` with the identifier passed in; stated by `Clinic.AddPatient` (the given details and identifier, an empty appointment list) and `Persistence.PatientsFromSaved` |
| Entities.NewDoctor | Thompson1.Tawana2-POS_Program-ITT103-SP2025.py:39-43 | `Doctor.__init__` with the identifier passed in; stated by `Clinic.AddDoctor` (the given details, identifier and specialty, an empty schedule) and `Persistence.DoctorsFromSaved` |
| Entities.Slot | Thompson1.Tawana2-POS_Program-ITT103-SP2025.py:155 | the slot string `f"{date} {time}"`, the same at booking and at cancel (line 71); that a booking takes it and its cancel frees it is `Clinic.BookCancelRoundTrip` |
| Entities.IsAvailable | Thompson1.Tawana2-POS_Program-ITT103-SP2025.py:46-47 | `is_available`; what it decides is stated where it is used: booking fails with not-available exactly when it is false (`Clinic.Book`), and `Clinic.BookCancelRoundTrip` shows the slot taken by a booking and freed by its cancel |
| Util.SplitJoin | Thompson1.Tawana2-POS_Program-ITT103-SP2025.py:204 | joining lines with a line break and splitting again gives the lines back when no line holds the separator |
| Util.Join | Thompson1.Tawana2-POS_Program-ITT103-SP2025.py:31-32 | `"sep".join`; stated by `Util.JoinEmpty` (empty exactly for no parts or one empty part) and `Util.SplitJoin` (the parts come back) |
| Util.JoinEmpty | Thompson1.Tawana2-POS_Program-ITT103-SP2025.py:32-36 | a joined text is empty exactly when there are no parts or only one empty part |
| Clinic.AddPatient | Thompson1.Tawana2-POS_Program-ITT103-SP2025.py:134-138 | exactly one patient is appended at the end, with the given identifier and details and an empty appointment list; earlier patients, doctors and appointments are unchanged |
| Clinic.AddDoctor | Thompson1.Tawana2-POS_Program-ITT103-SP2025.py:140-144 | exactly one doctor is appended at the end, with the given identifier, details and specialty and an empty schedule; everything else is unchanged |
| Clinic.Book | Thompson1.Tawana2-POS_Program-ITT103-SP2025.py:146-161 | patient-not-found exactly when no patient has the identifier; doctor-not-found exactly when the patient exists and no doctor has the identifier; not-available exactly when both exist and the slot is in the first matching doctor's schedule; success exactly when both exist and the slot is free. On success one Scheduled appointment naming the first matching patient and doctor is appended, its position is appended to that patient's list and its slot to that doctor's schedule, and no other patient or doctor changes |
| Clinic.CancelAt | Thompson1.Tawana2-POS_Program-ITT103-SP2025.py:69-72 | the status becomes Cancelled in every case; the cancel succeeds exactly when the slot is in the doctor's schedule, and then the first occurrence is removed from that schedule only; otherwise it fails with the schedules unchanged; patients never change |
| Clinic.CancelAppointment | Thompson1.Tawana2-POS_Program-ITT103-SP2025.py:165-169 | an unknown identifier fails with the registry unchanged exactly when no appointment has it; otherwise the first appointment with it is cancelled |
| Clinic.Confirm | Thompson1.Tawana2-POS_Program-ITT103-SP2025.py:65-67 | only that appointment changes, and only its status, which becomes Confirmed whatever it was |
| Clinic.GenerateBill | Thompson1.Tawana2-POS_Program-ITT103-SP2025.py:171-201 | fails exactly when no appointment has the identifier; otherwise the receipt names the first such appointment's patient and doctor, date and time, a 3000 consultation fee and total 3000 + the extra fee; the extra-fee line is there exactly when the fee is positive and carries that fee |
| Clinic.BillLinesAddUp | Thompson1.Tawana2-POS_Program-ITT103-SP2025.py:177-199 | the printed fee lines add up to the printed total exactly when the extra fee is not negative |
| Clinic.AppointmentsOfBeyond | Thompson1.Tawana2-POS_Program-ITT103-SP2025.py:134-138 | a patient no appointment names has an empty appointment list |
| Clinic.ActiveSlotsBeyond | Thompson1.Tawana2-POS_Program-ITT103-SP2025.py:140-144 | a doctor no appointment names holds no live slot |
| Clinic.AppendUnfold | Thompson1.Tawana2-POS_Program-ITT103-SP2025.py:159-161 | appending an appointment adds its position to its patient's list only, and its slot to its doctor's live slots only when it is not cancelled |
| Clinic.AppointmentsOfUpdate | Thompson1.Tawana2-POS_Program-ITT103-SP2025.py:65-72 | rewriting an appointment without changing its patient leaves every patient's appointment list as it was |
| Clinic.ActiveSlotsUpdate | Thompson1.Tawana2-POS_Program-ITT103-SP2025.py:65-72 | replacing one appointment changes a doctor's live slots by exactly the old and new appointment's contributions |
| Clinic.AddPatientPreserves | Thompson1.Tawana2-POS_Program-ITT103-SP2025.py:134-138 | registration keeps the registry well linked and keeps schedules matching live appointments |
| Clinic.AddDoctorPreserves | Thompson1.Tawana2-POS_Program-ITT103-SP2025.py:140-144 | registration keeps the registry well linked and keeps schedules matching live appointments |
| Clinic.BookPreserves | Thompson1.Tawana2-POS_Program-ITT103-SP2025.py:146-161 | a successful booking keeps the registry well linked, and keeps every schedule duplicate-free and equal to its doctor's live slots |
| Clinic.BookKeepsRefs | Thompson1.Tawana2-POS_Program-ITT103-SP2025.py:159-161 | a booked appointment names an existing patient and doctor |
| Clinic.BookCancelRoundTrip | Thompson1.Tawana2-POS_Program-ITT103-SP2025.py:146-169 | after a successful booking under a fresh identifier the slot is taken; cancelling by that identifier then succeeds, gives back every doctor's schedule as before the booking (so the slot is free again), and keeps the appointment, now Cancelled, in both lists |
| Clinic.CancelNewest | Thompson1.Tawana2-POS_Program-ITT103-SP2025.py:165-169 | cancelling the newest appointment, whose slot was freshly appended, marks it Cancelled and gives back the earlier schedules |
| Clinic.CancelFindsNewest | Thompson1.Tawana2-POS_Program-ITT103-SP2025.py:166 | the lookup of a freshly added identifier finds the newest appointment |
| Clinic.CancelUndoesSlot | Thompson1.Tawana2-POS_Program-ITT103-SP2025.py:71 | removing a slot that was the last one appended, and absent before, gives back the earlier doctors |
| Clinic.CancelAtKeepsLinks | Thompson1.Tawana2-POS_Program-ITT103-SP2025.py:69-72 | cancelling keeps the registry well linked, whether or not the remove succeeds |
| Clinic.CancelLivePreserves | Thompson1.Tawana2-POS_Program-ITT103-SP2025.py:69-72 | cancelling an appointment that is not yet cancelled always finds its slot and keeps schedules matching live appointments |
| Clinic.CancelledSlots | Thompson1.Tawana2-POS_Program-ITT103-SP2025.py:70 | cancelling a live appointment removes exactly its slot from its doctor's live slots and no other doctor's |
| Clinic.CancelLiveScheduleAt | Thompson1.Tawana2-POS_Program-ITT103-SP2025.py:70-71 | after cancelling a live appointment each doctor's schedule is still duplicate-free and equal to its live slots |
| Clinic.CancelTwiceNoSlot | Thompson1.Tawana2-POS_Program-ITT103-SP2025.py:70-71 | cancelling an already cancelled appointment whose slot is gone fails and changes nothing |
| Clinic.CancelTwiceAfterRebookBreaks | Thompson1.Tawana2-POS_Program-ITT103-SP2025.py:70-71 | cancelling an already cancelled appointment whose slot was booked again succeeds, and leaves a schedule that no longer matches the live appointments |
| Clinic.StolenSlotCancelFails | Thompson1.Tawana2-POS_Program-ITT103-SP2025.py:69-72 | after a second cancel of a cancelled appointment, the first cancel of a live booking of the same doctor and slot fails with the remove error |
| Clinic.ConfirmPreserves | Thompson1.Tawana2-POS_Program-ITT103-SP2025.py:65-67 | confirming keeps the registry well linked; on a consistent registry it keeps schedules matching exactly when the appointment was not cancelled (confirming a cancelled one revives it without taking its slot back) |
| Clinic.ConfirmedSlots | Thompson1.Tawana2-POS_Program-ITT103-SP2025.py:66 | confirming a live appointment leaves live slots unchanged; confirming a cancelled one adds its slot back to its doctor's live slots |
| Persistence.PatientsFrom | Thompson1.Tawana2-POS_Program-ITT103-SP2025.py:104-108 | the patients loop fails exactly when some record lacks a key; otherwise it yields one patient per record, in order |
| Persistence.DoctorsFrom | Thompson1.Tawana2-POS_Program-ITT103-SP2025.py:111-116 | the doctors loop fails exactly when some record lacks a key; otherwise it yields one doctor per record, in order, with the saved schedule |
| Persistence.PatientFrom | Thompson1.Tawana2-POS_Program-ITT103-SP2025.py:105-107 | one patient record as the loop recreates it; stated by `Persistence.PatientsFrom` (fails exactly on a missing key) and `Persistence.PatientsFromSaved` |
| Persistence.DoctorFrom | Thompson1.Tawana2-POS_Program-ITT103-SP2025.py:112-115 | one doctor record as the loop recreates it, schedule copied; stated by `Persistence.DoctorsFrom` and `Persistence.DoctorsFromSaved` |
| Persistence.Relinked | Thompson1.Tawana2-POS_Program-ITT103-SP2025.py:121-125 | the appointment a resolving record becomes, attached to the first matching patient and doctor; stated by `Persistence.RelinkOneLinked` and `Persistence.LoadRestores` |
| Persistence.RelinkOne | Thompson1.Tawana2-POS_Program-ITT103-SP2025.py:120-126 | one iteration of the appointments loop; its three outcomes are stated by `Persistence.RelinkOneOutcome` and what a successful one builds by `Persistence.RelinkOneLinked` |
| Persistence.RelinkOneOutcome | Thompson1.Tawana2-POS_Program-ITT103-SP2025.py:120-128 | an iteration stops on a missing key exactly where a key is read and absent (a generator reads the saved identifier only when there is an entity to compare with, and the other keys only after both lookups); it stops on the uncaught lookup failure exactly when a generator runs dry; it goes through exactly when the record resolves |
| Persistence.RelinkAll | Thompson1.Tawana2-POS_Program-ITT103-SP2025.py:118-126 | the appointments loop over the saved records in order; what it builds is stated by `Persistence.RelinkAllFacts`, when it stops by `Persistence.RelinkAllComplete` and `Persistence.RelinkAllStops` |
| Persistence.RelinkOneLinked | Thompson1.Tawana2-POS_Program-ITT103-SP2025.py:120-126 | an appointment record that goes through names existing identifiers, becomes its relinked appointment, and is appended to the first matching patient's list |
| Persistence.RelinkAllFacts | Thompson1.Tawana2-POS_Program-ITT103-SP2025.py:119-126 | after the appointments loop every patient's list holds that patient's appointments in saved order, and every appointment is its record attached to the first matching patient and doctor with its saved identifier and status |
| Persistence.RelinkOneStep | Thompson1.Tawana2-POS_Program-ITT103-SP2025.py:120-126 | one more record keeps what the loop has built so far in that form |
| Persistence.RelinkAllStops | Thompson1.Tawana2-POS_Program-ITT103-SP2025.py:120-122 | once the appointments loop stops, later records do not matter |
| Persistence.RelinkAllComplete | Thompson1.Tawana2-POS_Program-ITT103-SP2025.py:120-126 | with complete records the loop never stops on a missing key, and goes through exactly when every record's patient and doctor identifiers occur |
| Persistence.LoadMissingKey | Thompson1.Tawana2-POS_Program-ITT103-SP2025.py:98-132 | a missing file, malformed document, missing top-level list or patient or doctor record with a missing key leaves all three lists empty |
| Persistence.Load | Thompson1.Tawana2-POS_Program-ITT103-SP2025.py:98-132 | `load_data` on the decoded document; its outcomes are stated by `Persistence.LoadMissingKey`, `Persistence.LoadKeyMissingAt`, `Persistence.LoadNoPatientsCrashes`, `Persistence.LoadCrashIff` and `Persistence.LoadRestores` |
| Persistence.LoadKeyMissingAt | Thompson1.Tawana2-POS_Program-ITT103-SP2025.py:118-132 | when the records before it went through and an appointment record misses a key the loop reads, loading takes the `except` branch and leaves all three lists empty |
| Persistence.LoadNoPatientsCrashes | Thompson1.Tawana2-POS_Program-ITT103-SP2025.py:118-128 | with no saved patients, any saved appointment makes loading raise the uncaught error, whatever keys that record lacks |
| Persistence.LoadRestores | Thompson1.Tawana2-POS_Program-ITT103-SP2025.py:103-126 | a restored registry is well linked; patients and doctors are the saved ones in order, schedules copied as saved and not recomputed; every appointment is its saved record attached to the first matching patient and doctor, keeping saved identifier and status, cancelled ones included |
| Persistence.LoadCrashIff | Thompson1.Tawana2-POS_Program-ITT103-SP2025.py:120-128 | with all keys present, loading raises the uncaught StopIteration exactly when some appointment names a patient or doctor identifier that no saved patient or doctor has, and never falls back to empty |
| Persistence.PatientsFromSaved | Thompson1.Tawana2-POS_Program-ITT103-SP2025.py:103-108 | loading saved patients gives them back with empty appointment lists |
| Persistence.DoctorsFromSaved | Thompson1.Tawana2-POS_Program-ITT103-SP2025.py:110-116 | loading saved doctors gives them back, schedules included |
| Persistence.SnapshotOf | Thompson1.Tawana2-POS_Program-ITT103-SP2025.py:82-94 | the document `save_data` builds; that loading it gives back the registry is `Persistence.SaveLoadRoundTrip` |
| Persistence.AppointmentRecordOf | Thompson1.Tawana2-POS_Program-ITT103-SP2025.py:86-93 | one appointment flattened to identifiers; that it relinks to the appointment it was saved from is `Persistence.SavedAppointmentRelinks` |
| Persistence.SavedAppointmentRelinks | Thompson1.Tawana2-POS_Program-ITT103-SP2025.py:118-126 | with distinct identifiers a saved appointment record relinks to the appointment it was saved from |
| Persistence.RelinkedIsOriginal | Thompson1.Tawana2-POS_Program-ITT103-SP2025.py:119-126 | relinking the saved appointments of a well-linked registry with distinct identifiers rebuilds its patients and appointments |
| Persistence.LoadLinked | Thompson1.Tawana2-POS_Program-ITT103-SP2025.py:103-126 | when all three loops go through, loading restores what they built |
| Persistence.SaveLoadRoundTrip | Thompson1.Tawana2-POS_Program-ITT103-SP2025.py:82-126 | loading the document saved from a well-linked registry with distinct patient and doctor identifiers restores exactly that registry |
| Hospital.HospitalSystem.constructor | Thompson1.Tawana2-POS_Program-ITT103-SP2025.py:75-80 | `__init__` starts from empty lists and runs `load_data`; unless that raises the uncaught error, the lists hold what `Persistence.Load` restores, or are empty, and are well linked |
| Hospital.HospitalSystem.FindPatient | Thompson1.Tawana2-POS_Program-ITT103-SP2025.py:147 | the first patient with the identifier, or None |
| Hospital.HospitalSystem.FindDoctor | Thompson1.Tawana2-POS_Program-ITT103-SP2025.py:148 | the first doctor with the identifier, or None |
| Hospital.HospitalSystem.FindAppointment | Thompson1.Tawana2-POS_Program-ITT103-SP2025.py:166 | the first appointment with the identifier, or None |
| Hospital.HospitalSystem.AddPatient | Thompson1.Tawana2-POS_Program-ITT103-SP2025.py:134-138 | the lists become `Clinic.AddPatient` of the old ones, the new patient is returned, and the registry stays well linked |
| Hospital.HospitalSystem.AddDoctor | Thompson1.Tawana2-POS_Program-ITT103-SP2025.py:140-144 | the lists become `Clinic.AddDoctor` of the old ones, the new doctor is returned, and the registry stays well linked |
| Hospital.HospitalSystem.BookAppointment | Thompson1.Tawana2-POS_Program-ITT103-SP2025.py:146-163 | a failure is the error `Clinic.Book` gives and leaves every list unchanged; a success leaves the lists as `Clinic.Book` gives them and returns the new last appointment; the registry stays well linked |
| Hospital.HospitalSystem.Cancel | Thompson1.Tawana2-POS_Program-ITT103-SP2025.py:69-72 | the lists become `Clinic.CancelAt` of the old ones; success with the "cancelled" message exactly when the slot was removed, otherwise the remove's error; stays well linked |
| Hospital.HospitalSystem.CancelAppointment | Thompson1.Tawana2-POS_Program-ITT103-SP2025.py:165-169 | the lists become `Clinic.CancelAppointment` of the old ones, with its error on failure and the "Appointment <id> cancelled." message on success; stays well linked |
| Hospital.HospitalSystem.Confirm | Thompson1.Tawana2-POS_Program-ITT103-SP2025.py:65-67 | the lists become `Clinic.Confirm` of the old ones and the "confirmed" message is returned; stays well linked |
| Hospital.HospitalSystem.Reset | Thompson1.Tawana2-POS_Program-ITT103-SP2025.py:128-132 | the `except` branch empties all three lists |
| Hospital.HospitalSystem.LoadData | Thompson1.Tawana2-POS_Program-ITT103-SP2025.py:98-132 | reports the uncaught error exactly when `Persistence.Load` does; otherwise the lists hold what it restores, or are empty, and are well linked |
| Hospital.HospitalSystem.RecreatePatients | Thompson1.Tawana2-POS_Program-ITT103-SP2025.py:104-108 | the loop succeeds exactly when `PatientsFrom` does and then holds its patients; doctors and appointments untouched |
| Hospital.HospitalSystem.RecreateDoctors | Thompson1.Tawana2-POS_Program-ITT103-SP2025.py:111-116 | the loop succeeds exactly when `DoctorsFrom` does and then holds its doctors; patients and appointments untouched |
| Hospital.HospitalSystem.RelinkRecord | Thompson1.Tawana2-POS_Program-ITT103-SP2025.py:121-126 | one iteration ends as `RelinkOne` says and, when it goes through, leaves the lists it builds |
| Hospital.HospitalSystem.RecreateAppointments | Thompson1.Tawana2-POS_Program-ITT103-SP2025.py:119-126 | the loop ends as `RelinkAll` says and, when it goes through, leaves the patients and appointments it builds; doctors untouched |
| Rendering.ProfileBlock | Thompson1.Tawana2-POS_Program-ITT103-SP2025.py:31-36 | the profile's appointment block is "None" exactly when the patient has no appointments, and otherwise one line per appointment in list order |
| Rendering.AppointmentsBlock | Thompson1.Tawana2-POS_Program-ITT103-SP2025.py:31-36 | the appointment block of `view_profile`, `None` when the joined text is empty; stated by `Rendering.ProfileBlock` |
| Rendering.DisplayDetails | Thompson1.Tawana2-POS_Program-ITT103-SP2025.py:21-22 | `display_details`, the second line of a profile; its text is not stated further |
| Rendering.ViewProfile | Thompson1.Tawana2-POS_Program-ITT103-SP2025.py:31-36 | `view_profile`; its appointment block is stated by `Rendering.ProfileBlock` |
| Rendering.ScheduleEmpty | Thompson1.Tawana2-POS_Program-ITT103-SP2025.py:49-52 | the schedule view is only "No available slots" exactly when the schedule is empty, and otherwise starts with the doctor's identifier |
| Rendering.ViewSchedule | Thompson1.Tawana2-POS_Program-ITT103-SP2025.py:49-52 | `view_schedule`; its empty case and first line are stated by `Rendering.ScheduleEmpty` |
| Rendering.ListPatients | Thompson1.Tawana2-POS_Program-ITT103-SP2025.py:203-204 | `list_patients`; stated by `Rendering.ListPatientsLines` |
| Rendering.ListDoctors | Thompson1.Tawana2-POS_Program-ITT103-SP2025.py:206-207 | `list_doctors`; stated by `Rendering.ListDoctorsLines` |
| Rendering.ListAppointments | Thompson1.Tawana2-POS_Program-ITT103-SP2025.py:209-212 | `list_appointments`; stated by `Rendering.ListAppointmentsLines` |
| Rendering.ListPatientsLines | Thompson1.Tawana2-POS_Program-ITT103-SP2025.py:203-204 | `list_patients` is empty exactly when there are no patients, and splits into one line per patient |
| Rendering.ListDoctorsLines | Thompson1.Tawana2-POS_Program-ITT103-SP2025.py:206-207 | `list_doctors` is empty exactly when there are no doctors, and splits into one line per doctor |
| Rendering.ListAppointmentsLines | Thompson1.Tawana2-POS_Program-ITT103-SP2025.py:209-212 | `list_appointments` is empty exactly when there are no appointments, and splits into one line per appointment, cancelled ones included |

## Left out

- Identifier generation (`generate_alphanumeric_id`, lines 8-12) is random. New identifiers are parameters, and their uniqueness is not assumed. Where a lemma needs distinct identifiers it says so.
- File and JSON I/O in `save_data` and `load_data`. A snapshot is the already-decoded document, with each possibly missing key an `Option`. A missing file and malformed JSON are both the `None` document.
- `save_data` as called from `add_patient`, `add_doctor` and `book_appointment`. It changes no registry state, so the methods do not call it. `SnapshotOf` is the document it builds.
- The save defect. `vars(p)` at line 84 includes the patient's list of `Appointment` objects, which `json.dump` cannot write. Once any patient has an appointment, the save raises after the registry has changed, and nothing is rolled back. `SnapshotOf` omits that list, which `load_data` ignores.
- The interactive menu (`display_menu`, `get_valid_input`, `main`), including its seeding of sample patients and doctors.
- Floating point. The extra fee is a `real`, so rounding and the float formatting of the receipt are not modelled.
- Exact rendered text of the receipt. `Receipt` holds its fields, and only the line structure and empty cases of the other views are proved.
- The state after the uncaught `StopIteration`. `HospitalSystem.LoadData` reports it but says nothing about the lists, since the constructor that runs it raises and the object is never handed out.
- Hospital.HospitalSystem.LoadData: a JSON value of the wrong type (a list where a record is expected, say) is not modelled; each record is a fixed set of optional fields.
