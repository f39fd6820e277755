# Clinic management backend: request handlers over three tables

This project models the mutating request handlers of a small Flask/MySQL clinic
backend (`app.py`). The database is three tables, Patient, Doctor and Appointment,
each a map from id to row. They are held in a class, `Handlers.Clinic`, whose
methods are the handlers:

- `create_patient`, `create_doctor` and `create_appointment` check the required
  fields, then insert one row under a fresh AUTO_INCREMENT id.
- `update_patient` and `update_doctor` keep the allow-listed, non-null request
  fields, build a `column = %s` SET clause with its parameter list, and update one
  row.
- `delete_patient` and `delete_doctor` first delete the dependent appointments,
  then the parent row.
- `delete_appointment` deletes one appointment.

The modules follow the program's layers:

- `Json` (json.dfy) is the request data: a decoded JSON value, a Python `dict` as
  an insertion-ordered list of distinct-key entries, Python truthiness, and
  `dict.get`.
- `Validation` (validation.dfy) covers the create-path `missing` list, the
  update-path filter, the SET-clause builder, and the proof that executing the
  built statement performs exactly the partial update.
- `Store` (store.dfy) gives the effect of each SQL statement the handlers run on a
  table. It also defines the points where a store error can interrupt a handler.
- `Handlers` (handlers.dfy) holds the response kinds, the `Clinic` class with one
  method per handler, and two walkthroughs. The first creates a patient, changes
  their phone, then deletes them twice (201, 200, 200, 404). The second creates a
  patient and then books that patient with a doctor that does not exist. The
  booking is complete and bindable, so only the doctor reference fails. It gets 500
  and books nothing.

Store errors come from the environment, so each handler takes a `fault`
parameter. The fault names where a `mysql.connector.Error` is raised: opening the
connection, the n-th `execute`, or `commit()`. Two errors follow from the request
itself and are modelled as such:

- The connector cannot bind a JSON list or object as a parameter.
- The store refuses an appointment whose patient or doctor does not exist (a
  foreign-key violation).

Each handler runs as one session with the connector's default non-autocommit
mode. The statements' effects are private to the session until `commit()`:

- Success commits them.
- A store error rolls them back.
- "Not found" returns before `commit()`, and closing the connection discards the
  open transaction.

So every handler is all-or-nothing: on 400, 404 and 500 the tables are unchanged.
This is an assumption about the connector's session, which `app.py` does not show.

A patient or doctor delete that ends in "not found" does not keep its cascade
step. The handler deletes the dependent appointments first, but it returns before
`commit()`, so those deletions are discarded with the session. Lemma
`NoDependentsOfMissingParent` also shows that, under the referential integrity the
class keeps as an invariant, that cascade step has nothing to delete.

Class invariant `Clinic.Valid()`, preserved by every handler:

- Ids are positive and below the table's AUTO_INCREMENT counter.
- Every row has exactly its table's columns.
- Every appointment names an existing patient and an existing doctor.

## Model

| member | source | states |
|---|---|---|
| `Json.Get` | app.py:81 | `data.get(key)` is the value stored under the key, and `None` when the key is absent |
| `Validation.Missing` | app.py:80-81 | the missing list holds exactly the required fields whose value is absent or falsy, in the declared order (a subsequence of `required_fields`) |
| `Validation.MissingIsDetermined` | app.py:81 | with distinct required fields, any subsequence of them holding exactly the missing ones is Missing's result, so the list is fully determined |
| `Validation.NothingMissing` | app.py:81-82 | a request giving every required field a truthy value passes validation |
| `Validation.EmptyDataMissesAll` | app.py:78-81 | an empty request, which is also what an unparseable body becomes, reports every required field missing, in order |
| `Validation.Keep` | app.py:129-130 | the kept entries are exactly the request's entries whose key is allow-listed and whose value is not `None`, in the request's order, with distinct keys |
| `Validation.GetKept` | app.py:130 | looking up a key among the kept entries gives the request's value for an allow-listed key and `None` otherwise; a `None` value counts as absent |
| `Validation.BuildUpdate` | app.py:135-137 | one SET column per kept key, in order; the parameters are the kept values in the same order followed by the id, one per placeholder |
| `Validation.KeptColumns` | app.py:130-135 | the SET clause names distinct columns, all from the allow-list |
| `Validation.SetClauseColumn` | app.py:135-144 | each column of the updated row holds the request's value when the request supplies it, and its old value otherwise |
| `Validation.SetClauseOverwrites` | app.py:135-144 | executing the built SET clause with its parameters turns the row into `Overwrite(row, data, allowed)`: only the supplied fields change |
| `Store.ApplySetAssigns` | app.py:144 | an UPDATE's assignments to distinct columns give each named column its parameter and keep every other column |
| `Handlers.NoDependentsOfMissingParent` | app.py:169-173 | under referential integrity, deleting the appointments of a patient or doctor id that has no row changes nothing |
| `Handlers.Response.Status` | app.py:83-118 | created and done are the success codes (below 400); a validation failure, and only that, is a 400 |
| `Handlers.Clinic.CreatePatient` | app.py:78-118 | a missing field gives 400 with the missing list; a store error gives 500; both leave the tables unchanged; otherwise 201 and exactly one new patient row holding the request's values under a fresh id, with nothing else changed |
| `Handlers.Clinic.CreateDoctor` | app.py:223-262 | as CreatePatient, for the doctor fields |
| `Handlers.Clinic.CreateAppointment` | app.py:405-444 | as CreatePatient for the appointment fields; a patient or doctor that does not exist is a store error (500) that leaves the tables unchanged; referential integrity is kept |
| `Handlers.Clinic.UpdatePatient` | app.py:127-158 | no kept field gives 400; no row with the id gives 404; a store error gives 500; on all three the tables are unchanged; on success only the supplied fields of that one row change, and the other rows, the Doctor table and the Appointment table are unchanged |
| `Handlers.Clinic.UpdateDoctor` | app.py:268-299 | as UpdatePatient, for the doctor table |
| `Handlers.Clinic.DeletePatient` | app.py:164-185 | success removes the patient and exactly the appointments referring to it, leaves no appointment referring to it, and changes nothing else; a missing patient gives 404 and a store error gives 500, both with the tables unchanged |
| `Handlers.Clinic.DeleteDoctor` | app.py:305-326 | as DeletePatient, by `doctor_id` |
| `Handlers.Clinic.DeleteAppointment` | app.py:450-469 | success removes that appointment only, with no cascade; a missing id gives 404 and a store error gives 500, both with the tables unchanged |
| `Handlers.PatientWalkthrough` | app.py:65-185 | create, update one field, delete, delete again answer 201, 200, 200, 404; in between the row shows the new phone and the old date of birth |
| `Handlers.DanglingDoctorWalkthrough` | app.py:402-444 | after a patient is created, a booking for that existing patient with complete, bindable values but a doctor that does not exist answers 500; nothing is booked and the patient row is unchanged |

## Left out

- Flask routing, serving `index.html` and `styles.css`, and the entry point: HTTP plumbing with no logic of its own.
- The connection settings and the per-request open/close of connection and cursor: the class's tables stand in for the database.
- SQL text: the SET clause is modelled as its list of column names, and each statement by its effect on the tables.
- The read handlers `list_patients`, `list_doctors`, `list_appointments` and `list_todays_appointments`. They change nothing, their order follows the database collation, and the last one filters on the wall clock (`CURDATE()`).
- JSON decoding: the handlers take the decoded `dict`. A body that decodes to a truthy non-object raises outside the handled error path, and is not modelled. JSON objects with repeated keys, and `NaN`/`Infinity` numbers (truthy in Python), are not modelled either.
- Rows found by UPDATE: a row that exists counts as found even when the update writes the values it already holds. This assumes the connector reports matched rows; the exact `rowcount` rules belong to the connector and server.
- Handlers.Clinic.CreatePatient, Handlers.Clinic.CreateDoctor, Handlers.Clinic.CreateAppointment: `lastrowid` is modelled by a per-table AUTO_INCREMENT counter that starts at 1. The contracts give the new row the counter's value and advance the counter by one. On every failure the counter is unchanged, so in the model a rolled-back insert uses up no id and ids have no gaps. InnoDB does not reuse an auto-increment value taken by a rolled-back insert, such as a foreign-key refusal or a failed `commit()`, so MySQL's ids can have gaps.
- Column types: a row stores the request's values as given. A value the server would reject, such as a malformed date, fails only through the `fault` parameter.
- Handlers.Clinic.CreateAppointment: a foreign-key value counts as naming row `k` only when it is the JSON integer `k`. The server would also convert `"3"`, `3.0` or `true` to an id; the model reports such values as store errors.
- Error message text (`str(e)`) and the JSON envelopes: a response is modelled by its kind and status code.
- Concurrency between requests, and a crash between the two statements of a cascading delete: each handler is modelled as one atomic session.
