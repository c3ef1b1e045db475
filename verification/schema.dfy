/**
 The relational store behind the API: the four tables of the schema as
 sequences of rows in rowid order, plus the AUTOINCREMENT counters SQLite
 keeps in `sqlite_sequence`. Constraints the database enforces (NOT NULL,
 UNIQUE, primary keys) are stated as the invariant `Valid`; foreign keys
 are declared in the schema but never switched on, so they are not part
 of it.
 */
module Schema {
  import opened Wrappers

  /** A row of `beneficiaries`; the optional columns are nullable. */
  datatype Beneficiary = Beneficiary(
    id: int,
    name: string,
    cpf: string,
    nis: Option<string>,
    birthDate: Option<string>,
    address: Option<string>,
    phone: Option<string>)

  /** A row of `programs`. */
  datatype Program = Program(id: int, name: string)

  /** A row of `beneficiary_programs`; the pair is the primary key. */
  datatype Enrolment = Enrolment(beneficiaryId: int, programId: int)

  /** A row of `appointments`; `status` is NULL only when an update wrote no value. */
  datatype Appointment = Appointment(
    id: int,
    beneficiaryId: int,
    serverId: Option<int>,
    date: string,
    time: string,
    reason: Option<string>,
    status: Option<string>)

  datatype Store = Store(
    beneficiaries: seq<Beneficiary>,
    programs: seq<Program>,
    enrolments: seq<Enrolment>,
    appointments: seq<Appointment>,
    beneficiarySeq: int,
    programSeq: int,
    appointmentSeq: int)

  /** A freshly created database file. */
  const EmptyStore := Store([], [], [], [], 0, 0, 0)

  /** The status column's DEFAULT. */
  const DefaultStatus := "Agendado"

  /** Why a route answered with an error. */
  datatype DbError =
    | NotNullFailed(column: string)   // a NOT NULL column received no value
    | UniqueFailed(column: string)    // a UNIQUE column received a value another row holds
    | NameRequired                    // the program routes' own check on a missing or empty name
    | NotFound                        // fetch-by-id found no row
    | StorageFailed(step: string)     // the driver failed for a reason outside the model

  /** The store after a route, and what the route answered. */
  datatype Reply<T> = Reply(store: Store, result: Result<T, DbError>)

  /** Row ids strictly increase in rowid order, are positive and never pass the table's counter. */
  ghost predicate BeneficiaryKeys(bs: seq<Beneficiary>, last: int) {
    && (forall i, j :: 0 <= i < j < |bs| ==> bs[i].id < bs[j].id)
    && (forall i :: 0 <= i < |bs| ==> 0 < bs[i].id <= last)
    && 0 <= last
  }

  ghost predicate ProgramKeys(ps: seq<Program>, last: int) {
    && (forall i, j :: 0 <= i < j < |ps| ==> ps[i].id < ps[j].id)
    && (forall i :: 0 <= i < |ps| ==> 0 < ps[i].id <= last)
    && 0 <= last
  }

  ghost predicate AppointmentKeys(as_: seq<Appointment>, last: int) {
    && (forall i, j :: 0 <= i < j < |as_| ==> as_[i].id < as_[j].id)
    && (forall i :: 0 <= i < |as_| ==> 0 < as_[i].id <= last)
    && 0 <= last
  }

  /** `cpf TEXT NOT NULL UNIQUE`. */
  ghost predicate CpfUnique(bs: seq<Beneficiary>) {
    forall i, j :: 0 <= i < j < |bs| ==> bs[i].cpf != bs[j].cpf
  }

  /** `name TEXT NOT NULL UNIQUE`. */
  ghost predicate ProgramNameUnique(ps: seq<Program>) {
    forall i, j :: 0 <= i < j < |ps| ==> ps[i].name != ps[j].name
  }

  /** `PRIMARY KEY (beneficiary_id, program_id)`. */
  ghost predicate EnrolmentKeyUnique(es: seq<Enrolment>) {
    forall i, j :: 0 <= i < j < |es| ==> es[i] != es[j]
  }

  /** Every constraint the schema makes the database enforce. */
  ghost predicate Valid(s: Store) {
    && BeneficiaryKeys(s.beneficiaries, s.beneficiarySeq)
    && ProgramKeys(s.programs, s.programSeq)
    && AppointmentKeys(s.appointments, s.appointmentSeq)
    && CpfUnique(s.beneficiaries)
    && ProgramNameUnique(s.programs)
    && EnrolmentKeyUnique(s.enrolments)
  }

  /** Some row of `bs` has primary key `id`. */
  predicate HasBeneficiary(bs: seq<Beneficiary>, id: int) {
    exists i :: 0 <= i < |bs| && bs[i].id == id
  }

  predicate HasProgram(ps: seq<Program>, id: int) {
    exists i :: 0 <= i < |ps| && ps[i].id == id
  }

  predicate HasAppointment(as_: seq<Appointment>, id: int) {
    exists i :: 0 <= i < |as_| && as_[i].id == id
  }

  /** The row of `bs` whose primary key is `id`, if any (`WHERE id = ?` on a keyed table). */
  function FindBeneficiary(bs: seq<Beneficiary>, id: int): (r: Option<Beneficiary>)
    ensures r.Some? ==> r.value in bs && r.value.id == id
    ensures r.None? <==> !HasBeneficiary(bs, id)
  {
    if |bs| == 0 then None
    else if bs[0].id == id then Some(bs[0])
    else
      var r := FindBeneficiary(bs[1..], id);
      assert HasBeneficiary(bs, id) ==> HasBeneficiary(bs[1..], id) by {
        if HasBeneficiary(bs, id) {
          var i :| 0 <= i < |bs| && bs[i].id == id;
          assert bs[1..][i - 1].id == id;
        }
      }
      r
  }

  /** The empty database satisfies every constraint. */
  lemma EmptyStoreValid()
    ensures Valid(EmptyStore)
  {
  }
}
