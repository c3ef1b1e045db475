/**
 The `/api/appointments` routes: listing with optional scoping, creation
 and the status update. The table's foreign key to `beneficiaries` is
 declared but not enforced, so creation never looks the beneficiary up;
 the listing's inner join is what hides appointments whose beneficiary
 row is gone.
 */
module AppointmentRoutes {
  import opened Wrappers
  import opened Schema
  import Seqs
  import Sorting
  import Text

  /** The JSON body of a create; `status` may be sent but no column receives it. */
  datatype AppointmentBody = AppointmentBody(
    beneficiaryId: Option<int>,
    serverId: Option<int>,
    date: Option<string>,
    time: Option<string>,
    reason: Option<string>,
    status: Option<string>)

  /** The created reply `{ id: lastID, ...req.body }`: the new key and the body as sent. */
  datatype Created = Created(id: int, echo: AppointmentBody)

  /** One row of the listing's `SELECT`: appointment columns joined with the beneficiary's name. */
  datatype Listed = Listed(
    id: int,
    date: string,
    time: string,
    reason: Option<string>,
    status: Option<string>,
    beneficiaryName: string,
    beneficiaryId: int)

  /**
   `POST /api/appointments`. Succeeds exactly when `beneficiary_id`, `date`
   and `time` are present (the NOT NULL columns, checked in that order),
   whether or not the beneficiary exists. The stored status is always the
   column default, whatever status the body carries; the reply still
   echoes the body.
   */
  function Create(s: Store, body: AppointmentBody): (r: Reply<Created>)
    ensures body.beneficiaryId.None? ==> r.result == Err(NotNullFailed("appointments.beneficiary_id"))
    ensures body.beneficiaryId.Some? && body.date.None? ==> r.result == Err(NotNullFailed("appointments.date"))
    ensures body.beneficiaryId.Some? && body.date.Some? && body.time.None? ==>
              r.result == Err(NotNullFailed("appointments.time"))
    ensures r.result.Err? ==> r.store == s
    ensures r.result.Ok? <==> body.beneficiaryId.Some? && body.date.Some? && body.time.Some?
    ensures r.result.Ok? ==>
              && r.result.value == Created(s.appointmentSeq + 1, body)
              && |r.store.appointments| == |s.appointments| + 1
              && r.store.appointments[..|s.appointments|] == s.appointments
              && r.store.appointments[|s.appointments|]
                 == Appointment(s.appointmentSeq + 1, body.beneficiaryId.value, body.serverId, body.date.value,
                                body.time.value, body.reason, Some(DefaultStatus))
              && r.store == s.(appointments := r.store.appointments, appointmentSeq := s.appointmentSeq + 1)
  {
    if body.beneficiaryId.None? then Reply(s, Err(NotNullFailed("appointments.beneficiary_id")))
    else if body.date.None? then Reply(s, Err(NotNullFailed("appointments.date")))
    else if body.time.None? then Reply(s, Err(NotNullFailed("appointments.time")))
    else
      var id := s.appointmentSeq + 1;
      var row := Appointment(id, body.beneficiaryId.value, body.serverId, body.date.value, body.time.value,
                             body.reason, Some(DefaultStatus));
      assert (s.appointments + [row])[..|s.appointments|] == s.appointments;
      Reply(s.(appointments := s.appointments + [row], appointmentSeq := id), Ok(Created(id, body)))
  }

  /**
   `PUT /api/appointments/:id`: writes the given status, or NULL when none
   is given, into the row with that key and into no other column or row.
   It never fails and reports one change exactly when the key exists.
   */
  function UpdateStatus(s: Store, id: int, status: Option<string>): (r: Reply<nat>)
    ensures r.result == Ok(if HasAppointment(s.appointments, id) then 1 else 0)
    ensures |r.store.appointments| == |s.appointments|
    ensures forall i :: 0 <= i < |s.appointments| ==>
              var a := s.appointments[i];
              r.store.appointments[i] == if a.id == id then a.(status := status) else a
    ensures r.store == s.(appointments := r.store.appointments)
  {
    var as_ := s.appointments;
    var updated := seq(|as_|, i requires 0 <= i < |as_| => if as_[i].id == id then as_[i].(status := status) else as_[i]);
    Reply(s.(appointments := updated), Ok(if HasAppointment(as_, id) then 1 else 0))
  }

  /**
   The listing's scoping: `server_id` when given, otherwise `beneficiary_id`
   when given, otherwise every row. A NULL `server_id` never equals a
   given one.
   */
  predicate InScope(a: Appointment, serverId: Option<int>, beneficiaryId: Option<int>) {
    if serverId.Some? then a.serverId == serverId
    else if beneficiaryId.Some? then a.beneficiaryId == beneficiaryId.value
    else true
  }

  /** The appointment survives the scoping and the inner join with `beneficiaries`. */
  predicate Shown(bs: seq<Beneficiary>, a: Appointment, serverId: Option<int>, beneficiaryId: Option<int>) {
    InScope(a, serverId, beneficiaryId) && HasBeneficiary(bs, a.beneficiaryId)
  }

  /** The listed row for an appointment whose beneficiary exists. */
  function RowFor(bs: seq<Beneficiary>, a: Appointment): Listed
    requires HasBeneficiary(bs, a.beneficiaryId)
  {
    var b := FindBeneficiary(bs, a.beneficiaryId).value;
    Listed(a.id, a.date, a.time, a.reason, a.status, b.name, b.id)
  }

  /** `ORDER BY a.date, a.time` under the BINARY collation. */
  predicate SlotLe(x: Listed, y: Listed) {
    (Text.Le(x.date, y.date) && x.date != y.date) || (x.date == y.date && Text.Le(x.time, y.time))
  }

  lemma SlotLeIsTotalPreorder()
    ensures Sorting.TotalPreorder(SlotLe)
  {
    forall x: Listed, y: Listed ensures SlotLe(x, y) || SlotLe(y, x) {
      Text.LeTotal(x.date, y.date);
      Text.LeTotal(x.time, y.time);
    }
    forall x: Listed, y: Listed, z: Listed | SlotLe(x, y) && SlotLe(y, z) ensures SlotLe(x, z) {
      if x.date != y.date && y.date != z.date {
        Text.LeTransitive(x.date, y.date, z.date);
        if x.date == z.date {
          Text.LeAntisymmetric(x.date, y.date);
        }
      } else if x.date == y.date && y.date == z.date {
        Text.LeTransitive(x.time, y.time, z.time);
      }
    }
  }

  /** The joined rows of the given appointments, one each, in the same order. */
  function JoinRows(bs: seq<Beneficiary>, as_: seq<Appointment>): (r: seq<Listed>)
    requires forall i :: 0 <= i < |as_| ==> HasBeneficiary(bs, as_[i].beneficiaryId)
    ensures |r| == |as_|
    ensures forall i :: 0 <= i < |as_| ==> r[i] == RowFor(bs, as_[i])
  {
    seq(|as_|, i requires 0 <= i < |as_| && HasBeneficiary(bs, as_[i].beneficiaryId) => RowFor(bs, as_[i]))
  }

  /** Every appointment's row is among the joined rows, and every joined row is some appointment's. */
  lemma JoinRowsMembers(bs: seq<Beneficiary>, as_: seq<Appointment>)
    requires forall i :: 0 <= i < |as_| ==> HasBeneficiary(bs, as_[i].beneficiaryId)
    ensures forall a :: a in as_ ==> HasBeneficiary(bs, a.beneficiaryId) && RowFor(bs, a) in JoinRows(bs, as_)
    ensures forall row :: row in JoinRows(bs, as_) ==>
              exists a :: a in as_ && HasBeneficiary(bs, a.beneficiaryId) && row == RowFor(bs, a)
  {
    var rows := JoinRows(bs, as_);
    forall a | a in as_ ensures HasBeneficiary(bs, a.beneficiaryId) && RowFor(bs, a) in rows {
      var k :| 0 <= k < |as_| && as_[k] == a;
      assert rows[k] == RowFor(bs, a);
    }
    forall row | row in rows ensures exists a :: a in as_ && HasBeneficiary(bs, a.beneficiaryId) && row == RowFor(bs, a) {
      var k :| 0 <= k < |rows| && rows[k] == row;
      assert as_[k] in as_;
    }
  }

  /** The appointments the listing keeps, in table order. */
  function ShownAppointments(s: Store, serverId: Option<int>, beneficiaryId: Option<int>): (r: seq<Appointment>)
    ensures forall a :: a in r <==> a in s.appointments && Shown(s.beneficiaries, a, serverId, beneficiaryId)
    ensures forall a :: multiset(r)[a] ==
              if Shown(s.beneficiaries, a, serverId, beneficiaryId) then multiset(s.appointments)[a] else 0
    ensures forall i :: 0 <= i < |r| ==> HasBeneficiary(s.beneficiaries, r[i].beneficiaryId)
  {
    Seqs.Filter(s.appointments, (a: Appointment) => Shown(s.beneficiaries, a, serverId, beneficiaryId))
  }

  /** The joined rows of the shown appointments, in table order. */
  function ShownRows(s: Store, serverId: Option<int>, beneficiaryId: Option<int>): (r: seq<Listed>)
    ensures |r| == |ShownAppointments(s, serverId, beneficiaryId)|
    ensures forall i :: 0 <= i < |r| ==> r[i] == RowFor(s.beneficiaries, ShownAppointments(s, serverId, beneficiaryId)[i])
    ensures forall a :: a in s.appointments && Shown(s.beneficiaries, a, serverId, beneficiaryId) ==>
              RowFor(s.beneficiaries, a) in r
    ensures forall row :: row in r ==>
              exists a :: a in s.appointments && Shown(s.beneficiaries, a, serverId, beneficiaryId)
                          && row == RowFor(s.beneficiaries, a)
  {
    var shown := ShownAppointments(s, serverId, beneficiaryId);
    JoinRowsMembers(s.beneficiaries, shown);
    JoinRows(s.beneficiaries, shown)
  }

  /**
   `GET /api/appointments?server_id=&beneficiary_id=`: one row per
   appointment that is in scope and whose beneficiary exists, carrying that
   beneficiary's name, ordered by date and then time.
   */
  function List(s: Store, serverId: Option<int>, beneficiaryId: Option<int>): (r: seq<Listed>)
    ensures Sorting.SortedBy(r, SlotLe)
    ensures multiset(r) == multiset(ShownRows(s, serverId, beneficiaryId))
    ensures |r| == |ShownAppointments(s, serverId, beneficiaryId)|
    ensures forall a :: a in s.appointments && Shown(s.beneficiaries, a, serverId, beneficiaryId) ==>
              RowFor(s.beneficiaries, a) in r
    ensures forall row :: row in r ==>
              exists a :: a in s.appointments && Shown(s.beneficiaries, a, serverId, beneficiaryId)
                          && row == RowFor(s.beneficiaries, a)
  {
    var rows := ShownRows(s, serverId, beneficiaryId);
    SlotLeIsTotalPreorder();
    var r := Sorting.Sort(rows, SlotLe);
    Seqs.SameMultisetSameMembers(r, rows);
    r
  }

  /** `server_id` takes precedence: once it is given, `beneficiary_id` has no effect. */
  lemma ServerScopeWins(s: Store, serverId: int, beneficiaryId: Option<int>)
    ensures List(s, Some(serverId), beneficiaryId) == List(s, Some(serverId), None)
  {
    Seqs.FilterCongruent(s.appointments,
      (a: Appointment) => Shown(s.beneficiaries, a, Some(serverId), beneficiaryId),
      (a: Appointment) => Shown(s.beneficiaries, a, Some(serverId), None));
    assert ShownAppointments(s, Some(serverId), beneficiaryId) == ShownAppointments(s, Some(serverId), None);
  }

  lemma CreatePreservesValid(s: Store, body: AppointmentBody)
    requires Valid(s)
    ensures Valid(Create(s, body).store)
  {
  }

  lemma UpdateStatusPreservesValid(s: Store, id: int, status: Option<string>)
    requires Valid(s)
    ensures Valid(UpdateStatus(s, id, status).store)
  {
    var as_ := s.appointments;
    var as' := UpdateStatus(s, id, status).store.appointments;
    assert forall i :: 0 <= i < |as_| ==> as'[i].id == as_[i].id;
  }
}
