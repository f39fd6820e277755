/** The clinic's mutating request handlers: create, partial update and cascading
    delete of patients and doctors, create and delete of appointments, each run as
    one database session that commits on success and otherwise leaves the tables
    as they were. */
module Handlers {
  import opened Json
  import opened Store
  import opened Validation

  /** Required on create and allow-listed on update, in declared order. */
  const PatientFields: seq<string> := ["name", "dob", "gender", "phone", "address"]
  const DoctorFields: seq<string> := ["name", "phone", "email", "specialization"]
  const AppointmentFields: seq<string> := ["patient_id", "doctor_id", "date", "time"]

  /** What a handler answers. */
  datatype Response =
    | Created(id: int)                   // 201, {message, <entity>_id}
    | Done                               // 200, {message}
    | MissingFields(missing: seq<string>) // 400, {error, missing}
    | NoValidFields                      // 400, {error}
    | NotFound                           // 404, {error}
    | StoreError                         // 500, {error: str(e)}
  {
    /** The HTTP status code sent with the response. */
    function Status(): (code: int)
      ensures code < 400 <==> Created? || Done?
      ensures code == 400 <==> MissingFields? || NoValidFields?
    {
      match this
      case Created(_) => 201
      case Done => 200
      case MissingFields(_) => 400
      case NoValidFields => 400
      case NotFound => 404
      case StoreError => 500
    }
  }

  /** The row a create inserts: each column holds the request's value for it. */
  function NewRow(data: Dict, columns: seq<string>): Row {
    map c | c in columns :: Get(data, c)
  }

  /** Every value the request gives for `columns` can be bound as a parameter. */
  predicate AllStorable(data: Dict, columns: seq<string>) {
    forall c :: c in columns ==> Storable(Get(data, c))
  }

  /** Every appointment names an existing patient and an existing doctor. */
  ghost predicate NoOrphans(appointments: map<int, Row>, patients: map<int, Row>, doctors: map<int, Row>) {
    forall a :: a in appointments ==>
      && "patient_id" in appointments[a] && References(appointments[a]["patient_id"], patients)
      && "doctor_id" in appointments[a] && References(appointments[a]["doctor_id"], doctors)
  }

  /** Under referential integrity no appointment refers to a patient or doctor id
      that has no row, so the first statement of a cascading delete removes nothing
      when the second is about to report "not found". */
  lemma NoDependentsOfMissingParent(
    appointments: Table, patients: map<int, Row>, doctors: map<int, Row>, column: string, id: int)
    requires NoOrphans(appointments.rows, patients, doctors)
    requires (column == "patient_id" && id !in patients) || (column == "doctor_id" && id !in doctors)
    ensures DeleteWhere(appointments, column, id) == appointments
  {
    var after := DeleteWhere(appointments, column, id);
    forall a | a in appointments.rows ensures a in after.rows {
      assert !RefersTo(appointments.rows[a], column, id);
    }
  }

  /** The three tables, as committed. */
  class Clinic {
    var patients: Table
    var doctors: Table
    var appointments: Table

    ghost predicate Valid()
      reads this
    {
      && WellFormed(patients, PatientFields)
      && WellFormed(doctors, DoctorFields)
      && WellFormed(appointments, AppointmentFields)
      && NoOrphans(appointments.rows, patients.rows, doctors.rows)
    }

    constructor ()
      ensures Valid()
      ensures patients.rows == map[] && doctors.rows == map[] && appointments.rows == map[]
      ensures patients.nextId == 1 && doctors.nextId == 1 && appointments.nextId == 1
    {
      patients := Table(map[], 1);
      doctors := Table(map[], 1);
      appointments := Table(map[], 1);
    }

    /** POST /api/patients */
    method CreatePatient(data: Dict, fault: Fault) returns (r: Response)
      requires Valid()
      modifies this
      ensures Valid()
      ensures Missing(data, PatientFields) != [] ==> r == MissingFields(Missing(data, PatientFields))
      ensures r.StoreError? <==>
                Missing(data, PatientFields) == [] && (Hits(fault, 1, true) || !AllStorable(data, PatientFields))
      ensures r.Created? <==>
                Missing(data, PatientFields) == [] && !Hits(fault, 1, true) && AllStorable(data, PatientFields)
      ensures !r.Created? ==> unchanged(this)
      ensures r.Created? ==>
                && r.id == old(patients.nextId) && r.id > 0 && r.id !in old(patients.rows)
                && patients == Table(old(patients.rows)[r.id := NewRow(data, PatientFields)], r.id + 1)
                && doctors == old(doctors) && appointments == old(appointments)
    {
      var missing := Missing(data, PatientFields);
      if missing != [] {
        return MissingFields(missing);
      }
      if fault == OnConnect {
        return StoreError;
      }
      // Statement 1, INSERT: its effect stays inside the open transaction.
      if fault == OnExecute(1) || !AllStorable(data, PatientFields) {
        return StoreError;
      }
      var id := patients.nextId;
      var pending := Insert(patients, NewRow(data, PatientFields));
      if fault == OnCommit {
        return StoreError;
      }
      patients := pending;
      r := Created(id);
    }

    /** POST /api/doctors */
    method CreateDoctor(data: Dict, fault: Fault) returns (r: Response)
      requires Valid()
      modifies this
      ensures Valid()
      ensures Missing(data, DoctorFields) != [] ==> r == MissingFields(Missing(data, DoctorFields))
      ensures r.StoreError? <==>
                Missing(data, DoctorFields) == [] && (Hits(fault, 1, true) || !AllStorable(data, DoctorFields))
      ensures r.Created? <==>
                Missing(data, DoctorFields) == [] && !Hits(fault, 1, true) && AllStorable(data, DoctorFields)
      ensures !r.Created? ==> unchanged(this)
      ensures r.Created? ==>
                && r.id == old(doctors.nextId) && r.id > 0 && r.id !in old(doctors.rows)
                && doctors == Table(old(doctors.rows)[r.id := NewRow(data, DoctorFields)], r.id + 1)
                && patients == old(patients) && appointments == old(appointments)
    {
      var missing := Missing(data, DoctorFields);
      if missing != [] {
        return MissingFields(missing);
      }
      if fault == OnConnect {
        return StoreError;
      }
      if fault == OnExecute(1) || !AllStorable(data, DoctorFields) {
        return StoreError;
      }
      var id := doctors.nextId;
      var pending := Insert(doctors, NewRow(data, DoctorFields));
      if fault == OnCommit {
        return StoreError;
      }
      doctors := pending;
      r := Created(id);
    }

    /** POST /api/appointments. The store refuses, with a foreign-key error, an
        appointment whose patient or doctor does not exist. */
    method CreateAppointment(data: Dict, fault: Fault) returns (r: Response)
      requires Valid()
      modifies this
      ensures Valid()
      ensures Missing(data, AppointmentFields) != [] ==> r == MissingFields(Missing(data, AppointmentFields))
      ensures r.StoreError? <==>
                && Missing(data, AppointmentFields) == []
                && (|| Hits(fault, 1, true)
                    || !AllStorable(data, AppointmentFields)
                    || !References(Get(data, "patient_id"), old(patients.rows))
                    || !References(Get(data, "doctor_id"), old(doctors.rows)))
      ensures r.Created? <==>
                && Missing(data, AppointmentFields) == []
                && !Hits(fault, 1, true)
                && AllStorable(data, AppointmentFields)
                && References(Get(data, "patient_id"), old(patients.rows))
                && References(Get(data, "doctor_id"), old(doctors.rows))
      ensures !r.Created? ==> unchanged(this)
      ensures r.Created? ==>
                && r.id == old(appointments.nextId) && r.id > 0 && r.id !in old(appointments.rows)
                && appointments == Table(old(appointments.rows)[r.id := NewRow(data, AppointmentFields)], r.id + 1)
                && patients == old(patients) && doctors == old(doctors)
    {
      var missing := Missing(data, AppointmentFields);
      if missing != [] {
        return MissingFields(missing);
      }
      if fault == OnConnect {
        return StoreError;
      }
      if || fault == OnExecute(1)
         || !AllStorable(data, AppointmentFields)
         || !References(Get(data, "patient_id"), patients.rows)
         || !References(Get(data, "doctor_id"), doctors.rows)
      {
        return StoreError;
      }
      var id := appointments.nextId;
      var pending := Insert(appointments, NewRow(data, AppointmentFields));
      if fault == OnCommit {
        return StoreError;
      }
      appointments := pending;
      r := Created(id);
    }

    /** PUT /api/patients/<id> */
    method UpdatePatient(id: int, data: Dict, fault: Fault) returns (r: Response)
      requires Valid()
      modifies this
      ensures Valid()
      ensures r.NoValidFields? <==> Keep(data, PatientFields) == []
      ensures r.StoreError? <==>
                && Keep(data, PatientFields) != []
                && (Hits(fault, 1, id in old(patients.rows)) || !AllStorable(data, PatientFields))
      ensures r.NotFound? <==>
                && Keep(data, PatientFields) != []
                && !Hits(fault, 1, false) && AllStorable(data, PatientFields)
                && id !in old(patients.rows)
      ensures r.Done? <==>
                && Keep(data, PatientFields) != []
                && !Hits(fault, 1, true) && AllStorable(data, PatientFields)
                && id in old(patients.rows)
      ensures !r.Done? ==> unchanged(this)
      ensures r.Done? ==>
                && id in old(patients.rows)
                && patients == Table(old(patients.rows)[id := Overwrite(old(patients.rows[id]), data, PatientFields)],
                                     old(patients.nextId))
                && doctors == old(doctors) && appointments == old(appointments)
    {
      var kept := Keep(data, PatientFields);
      if kept == [] {
        return NoValidFields;
      }
      var columns, values := BuildUpdate(kept, id);
      if fault == OnConnect {
        return StoreError;
      }
      if fault == OnExecute(1) || !AllStorable(data, PatientFields) {
        return StoreError;
      }
      var (pending, count) := ExecUpdate(patients, columns, values);
      if count == 0 {
        return NotFound;
      }
      if fault == OnCommit {
        return StoreError;
      }
      SetClauseOverwrites(patients.rows[id], data, PatientFields, columns, values[..|columns|]);
      patients := pending;
      r := Done;
    }

    /** PUT /api/doctors/<id> */
    method UpdateDoctor(id: int, data: Dict, fault: Fault) returns (r: Response)
      requires Valid()
      modifies this
      ensures Valid()
      ensures r.NoValidFields? <==> Keep(data, DoctorFields) == []
      ensures r.StoreError? <==>
                && Keep(data, DoctorFields) != []
                && (Hits(fault, 1, id in old(doctors.rows)) || !AllStorable(data, DoctorFields))
      ensures r.NotFound? <==>
                && Keep(data, DoctorFields) != []
                && !Hits(fault, 1, false) && AllStorable(data, DoctorFields)
                && id !in old(doctors.rows)
      ensures r.Done? <==>
                && Keep(data, DoctorFields) != []
                && !Hits(fault, 1, true) && AllStorable(data, DoctorFields)
                && id in old(doctors.rows)
      ensures !r.Done? ==> unchanged(this)
      ensures r.Done? ==>
                && id in old(doctors.rows)
                && doctors == Table(old(doctors.rows)[id := Overwrite(old(doctors.rows[id]), data, DoctorFields)],
                                    old(doctors.nextId))
                && patients == old(patients) && appointments == old(appointments)
    {
      var kept := Keep(data, DoctorFields);
      if kept == [] {
        return NoValidFields;
      }
      var columns, values := BuildUpdate(kept, id);
      if fault == OnConnect {
        return StoreError;
      }
      if fault == OnExecute(1) || !AllStorable(data, DoctorFields) {
        return StoreError;
      }
      var (pending, count) := ExecUpdate(doctors, columns, values);
      if count == 0 {
        return NotFound;
      }
      if fault == OnCommit {
        return StoreError;
      }
      SetClauseOverwrites(doctors.rows[id], data, DoctorFields, columns, values[..|columns|]);
      doctors := pending;
      r := Done;
    }

    /** DELETE /api/patients/<id>: first the patient's appointments, then the patient. */
    method DeletePatient(id: int, fault: Fault) returns (r: Response)
      requires Valid()
      modifies this
      ensures Valid()
      ensures r.StoreError? <==> Hits(fault, 2, id in old(patients.rows))
      ensures r.NotFound? <==> !Hits(fault, 2, false) && id !in old(patients.rows)
      ensures r.Done? <==> !Hits(fault, 2, true) && id in old(patients.rows)
      ensures !r.Done? ==> unchanged(this)
      ensures r.Done? ==>
                && patients == Table(old(patients.rows) - {id}, old(patients.nextId))
                && doctors == old(doctors)
                && appointments.nextId == old(appointments.nextId)
                && (forall a :: a in appointments.rows <==>
                      a in old(appointments.rows) && !RefersTo(old(appointments.rows)[a], "patient_id", id))
                && (forall a :: a in appointments.rows ==> appointments.rows[a] == old(appointments.rows)[a])
                && (forall a :: a in appointments.rows ==> !RefersTo(appointments.rows[a], "patient_id", id))
    {
      if fault == OnConnect {
        return StoreError;
      }
      var appointmentsLeft := DeleteWhere(appointments, "patient_id", id);
      if fault == OnExecute(1) {
        return StoreError;
      }
      var (patientsLeft, count) := DeleteKey(patients, id);
      if fault == OnExecute(2) {
        return StoreError;
      }
      if count == 0 {
        // Returned before commit: closing the session discards statement 1.
        return NotFound;
      }
      if fault == OnCommit {
        return StoreError;
      }
      appointments, patients := appointmentsLeft, patientsLeft;
      r := Done;
    }

    /** DELETE /api/doctors/<id>: first the doctor's appointments, then the doctor. */
    method DeleteDoctor(id: int, fault: Fault) returns (r: Response)
      requires Valid()
      modifies this
      ensures Valid()
      ensures r.StoreError? <==> Hits(fault, 2, id in old(doctors.rows))
      ensures r.NotFound? <==> !Hits(fault, 2, false) && id !in old(doctors.rows)
      ensures r.Done? <==> !Hits(fault, 2, true) && id in old(doctors.rows)
      ensures !r.Done? ==> unchanged(this)
      ensures r.Done? ==>
                && doctors == Table(old(doctors.rows) - {id}, old(doctors.nextId))
                && patients == old(patients)
                && appointments.nextId == old(appointments.nextId)
                && (forall a :: a in appointments.rows <==>
                      a in old(appointments.rows) && !RefersTo(old(appointments.rows)[a], "doctor_id", id))
                && (forall a :: a in appointments.rows ==> appointments.rows[a] == old(appointments.rows)[a])
                && (forall a :: a in appointments.rows ==> !RefersTo(appointments.rows[a], "doctor_id", id))
    {
      if fault == OnConnect {
        return StoreError;
      }
      var appointmentsLeft := DeleteWhere(appointments, "doctor_id", id);
      if fault == OnExecute(1) {
        return StoreError;
      }
      var (doctorsLeft, count) := DeleteKey(doctors, id);
      if fault == OnExecute(2) {
        return StoreError;
      }
      if count == 0 {
        return NotFound;
      }
      if fault == OnCommit {
        return StoreError;
      }
      appointments, doctors := appointmentsLeft, doctorsLeft;
      r := Done;
    }

    /** DELETE /api/appointments/<id>: that appointment only. */
    method DeleteAppointment(id: int, fault: Fault) returns (r: Response)
      requires Valid()
      modifies this
      ensures Valid()
      ensures r.StoreError? <==> Hits(fault, 1, id in old(appointments.rows))
      ensures r.NotFound? <==> !Hits(fault, 1, false) && id !in old(appointments.rows)
      ensures r.Done? <==> !Hits(fault, 1, true) && id in old(appointments.rows)
      ensures !r.Done? ==> unchanged(this)
      ensures r.Done? ==>
                && appointments == Table(old(appointments.rows) - {id}, old(appointments.nextId))
                && patients == old(patients) && doctors == old(doctors)
    {
      if fault == OnConnect {
        return StoreError;
      }
      var (appointmentsLeft, count) := DeleteKey(appointments, id);
      if fault == OnExecute(1) {
        return StoreError;
      }
      if count == 0 {
        return NotFound;
      }
      if fault == OnCommit {
        return StoreError;
      }
      appointments := appointmentsLeft;
      r := Done;
    }
  }

  /** The request that creates the walkthrough's patient. */
  const AnnRequest: Dict :=
    [Field("name", Str("Ann")), Field("dob", Str("1990-01-01")), Field("gender", Str("F")),
     Field("phone", Str("555")), Field("address", Str("1 Rd"))]

  lemma AnnRequestIsComplete()
    ensures Missing(AnnRequest, PatientFields) == []
    ensures Get(AnnRequest, "dob") == Str("1990-01-01")
  {
    var ann := AnnRequest;
    assert ann[0].key == "name" && ann[1].key == "dob" && ann[2].key == "gender";
    assert ann[3].key == "phone" && ann[4].key == "address";
    NothingMissing(ann, PatientFields);
  }

  lemma AnnRequestIsStorable()
    ensures AllStorable(AnnRequest, PatientFields)
  {
    var ann := AnnRequest;
    forall c | c in PatientFields ensures Storable(Get(ann, c)) {
      if i :| 0 <= i < |ann| && ann[i].key == c {
        assert ann[i].value.Str?;
      }
    }
  }

  /** The request that changes the walkthrough patient's phone number. */
  const PhoneChange: Dict := [Field("phone", Str("999"))]

  lemma PhoneChangeKeepsPhoneOnly()
    ensures Keep(PhoneChange, PatientFields) == PhoneChange && AllStorable(PhoneChange, PatientFields)
    ensures Get(PhoneChange, "phone") == Str("999") && Get(PhoneChange, "dob") == Null
  {
    assert PhoneChange[0] in Keep(PhoneChange, PatientFields);
  }

  /** A patient is created, has one field changed, and is deleted twice; in between,
      the stored row shows the new phone number and the old date of birth. */
  method PatientWalkthrough() returns (responses: seq<Response>, phone: Value, dob: Value)
    ensures |responses| == 4 && responses[0].Created? && responses[1..] == [Done, Done, NotFound]
    ensures phone == Str("999") && dob == Str("1990-01-01")
  {
    var clinic := new Clinic();
    AnnRequestIsComplete();
    AnnRequestIsStorable();
    var created := clinic.CreatePatient(AnnRequest, NoFault);
    var id := created.id;
    PhoneChangeKeepsPhoneOnly();
    var updated := clinic.UpdatePatient(id, PhoneChange, NoFault);
    phone, dob := clinic.patients.rows[id]["phone"], clinic.patients.rows[id]["dob"];
    var deleted := clinic.DeletePatient(id, NoFault);
    var again := clinic.DeletePatient(id, NoFault);
    responses := [created, updated, deleted, again];
  }

  /** A request booking patient 1 with doctor 7. */
  const BookingRequest: Dict :=
    [Field("patient_id", Int(1)), Field("doctor_id", Int(7)),
     Field("date", Str("2024-01-01")), Field("time", Str("09:00"))]

  lemma BookingRequestIsComplete()
    ensures Missing(BookingRequest, AppointmentFields) == []
    ensures Get(BookingRequest, "patient_id") == Int(1) && Get(BookingRequest, "doctor_id") == Int(7)
  {
    var request := BookingRequest;
    assert request[0].key == "patient_id" && request[1].key == "doctor_id";
    assert request[2].key == "date" && request[3].key == "time";
  }

  lemma BookingRequestIsStorable()
    ensures AllStorable(BookingRequest, AppointmentFields)
  {
    var request := BookingRequest;
    forall c | c in AppointmentFields ensures Storable(Get(request, c)) {
      if i :| 0 <= i < |request| && request[i].key == c {
        assert request[i].value.Int? || request[i].value.Str?;
      }
    }
  }

  /** A booking whose patient exists and whose values are all complete and bindable,
      but whose doctor does not exist, is refused by the store: nothing is booked and
      the patient is left as created. */
  method DanglingDoctorWalkthrough() returns (response: Response, patientFound: bool, booked: nat, patient: Row)
    ensures patientFound && AllStorable(BookingRequest, AppointmentFields)
    ensures response == StoreError && booked == 0
    ensures patient == NewRow(AnnRequest, PatientFields)
  {
    var clinic := new Clinic();
    AnnRequestIsComplete();
    AnnRequestIsStorable();
    var created := clinic.CreatePatient(AnnRequest, NoFault);
    BookingRequestIsComplete();
    BookingRequestIsStorable();
    patientFound := References(Get(BookingRequest, "patient_id"), clinic.patients.rows);
    response := clinic.CreateAppointment(BookingRequest, NoFault);
    booked := |clinic.appointments.rows|;
    patient := clinic.patients.rows[created.id];
  }
}
