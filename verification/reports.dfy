/**
 `GET /api/reports/stats`: four read-only aggregate queries combined into
 one report. The handler fans the queries out and answers once all four
 have returned; the first failure to arrive is answered instead, so a
 report is only ever sent whole.
 */
module ReportRoutes {
  import opened Wrappers
  import opened Schema

  /** A row of `SELECT status, COUNT(*) ... GROUP BY status`. */
  datatype StatusCount = StatusCount(status: Option<string>, count: nat)

  /** A row of the `programs LEFT JOIN beneficiary_programs ... GROUP BY p.name` query. */
  datatype ProgramCount = ProgramCount(name: string, count: nat)

  datatype Report = Report(
    totalBeneficiaries: nat,
    totalAppointments: nat,
    appointmentsByStatus: seq<StatusCount>,
    beneficiariesByProgram: seq<ProgramCount>)

  /** The four sub-queries, in the order the handler declares them. */
  datatype Query = TotalBeneficiaries | TotalAppointments | AppointmentsByStatus | BeneficiariesByProgram

  /** The key a sub-query's result is stored under, also quoted in its error. */
  function Key(q: Query): string {
    match q
    case TotalBeneficiaries => "totalBeneficiaries"
    case TotalAppointments => "totalAppointments"
    case AppointmentsByStatus => "appointmentsByStatus"
    case BeneficiariesByProgram => "beneficiariesByProgram"
  }

  /** How many appointments carry `status`. */
  function CountStatus(as_: seq<Appointment>, status: Option<string>): nat {
    if |as_| == 0 then 0
    else CountStatus(as_[..|as_| - 1], status) + (if as_[|as_| - 1].status == status then 1 else 0)
  }

  /** Some appointment carries `status`. */
  predicate StatusPresent(as_: seq<Appointment>, status: Option<string>) {
    exists i :: 0 <= i < |as_| && as_[i].status == status
  }

  /** Some group is for `status`. */
  predicate HasGroup(gs: seq<StatusCount>, status: Option<string>) {
    exists i :: 0 <= i < |gs| && gs[i].status == status
  }

  /** No two groups share a status. */
  predicate DistinctGroups(gs: seq<StatusCount>) {
    forall i, j :: 0 <= i < j < |gs| ==> gs[i].status != gs[j].status
  }

  /** Every group counts at least one row. */
  predicate NonEmptyGroups(gs: seq<StatusCount>) {
    forall i :: 0 <= i < |gs| ==> gs[i].count > 0
  }

  /** The count of the first group for `status`, or 0 when there is none. */
  function GroupCount(gs: seq<StatusCount>, status: Option<string>): nat {
    if |gs| == 0 then 0
    else if gs[0].status == status then gs[0].count
    else GroupCount(gs[1..], status)
  }

  /** The sum of the group counts. */
  function Total(gs: seq<StatusCount>): nat {
    if |gs| == 0 then 0 else gs[0].count + Total(gs[1..])
  }

  /** Putting a group in front of groups that lack its status keeps them distinct and adds its status. */
  lemma ConsGroup(g: StatusCount, rest: seq<StatusCount>)
    requires DistinctGroups(rest) && !HasGroup(rest, g.status)
    ensures DistinctGroups([g] + rest)
    ensures forall x :: HasGroup([g] + rest, x) <==> x == g.status || HasGroup(rest, x)
  {
    var r := [g] + rest;
    forall x ensures HasGroup(r, x) <==> x == g.status || HasGroup(rest, x) {
      if x == g.status {
        assert r[0].status == x;
      }
      if HasGroup(rest, x) {
        var k :| 0 <= k < |rest| && rest[k].status == x;
        assert r[k + 1].status == x;
      }
      if HasGroup(r, x) && x != g.status {
        var i :| 0 <= i < |r| && r[i].status == x;
        assert rest[i - 1].status == x;
      }
    }
    forall i, j | 0 <= i < j < |r| ensures r[i].status != r[j].status {
      assert r[j] == rest[j - 1];
      if i > 0 {
        assert r[i] == rest[i - 1];
      }
    }
  }

  /** The groups after the first are distinct and none of them has the first one's status. */
  lemma DistinctTail(gs: seq<StatusCount>)
    requires |gs| > 0 && DistinctGroups(gs)
    ensures DistinctGroups(gs[1..]) && !HasGroup(gs[1..], gs[0].status)
  {
    var t := gs[1..];
    forall i, j | 0 <= i < j < |t| ensures t[i].status != t[j].status {
      assert t[i] == gs[i + 1] && t[j] == gs[j + 1];
    }
  }

  /** One more row with `status`: its group grows by one, or a new group of one is appended. */
  function Bump(gs: seq<StatusCount>, status: Option<string>): (r: seq<StatusCount>)
    requires DistinctGroups(gs)
    ensures DistinctGroups(r)
    ensures NonEmptyGroups(gs) ==> NonEmptyGroups(r)
    ensures forall x :: HasGroup(r, x) <==> HasGroup(gs, x) || x == status
    ensures forall x :: GroupCount(r, x) == GroupCount(gs, x) + (if x == status then 1 else 0)
    ensures Total(r) == Total(gs) + 1
  {
    if |gs| == 0 then
      assert [StatusCount(status, 1)][0].status == status;
      [StatusCount(status, 1)]
    else
      DistinctTail(gs);
      assert gs == [gs[0]] + gs[1..];
      ConsGroup(gs[0], gs[1..]);
      if gs[0].status == status then
        var g := gs[0].(count := gs[0].count + 1);
        var r := [g] + gs[1..];
        ConsGroup(g, gs[1..]);
        assert r[1..] == gs[1..];
        r
      else
        var rest := Bump(gs[1..], status);
        var r := [gs[0]] + rest;
        ConsGroup(gs[0], rest);
        assert r[1..] == rest;
        r
  }

  /**
   `SELECT status, COUNT(*) FROM appointments GROUP BY status`: exactly one
   group per status value present (NULL included), counting its rows. The
   groups are listed in order of first appearance; SQL leaves the order open.
   */
  function GroupByStatus(as_: seq<Appointment>): (r: seq<StatusCount>)
    ensures DistinctGroups(r)
    ensures NonEmptyGroups(r)
    ensures forall x :: HasGroup(r, x) <==> StatusPresent(as_, x)
    ensures forall x :: GroupCount(r, x) == CountStatus(as_, x)
    ensures Total(r) == |as_|
  {
    if |as_| == 0 then []
    else
      var init := as_[..|as_| - 1];
      var r := Bump(GroupByStatus(init), as_[|as_| - 1].status);
      forall x ensures StatusPresent(as_, x) <==> StatusPresent(init, x) || x == as_[|as_| - 1].status {
        if StatusPresent(as_, x) {
          var i :| 0 <= i < |as_| && as_[i].status == x;
          if i < |as_| - 1 {
            assert init[i].status == x;
          }
        }
        if StatusPresent(init, x) {
          var i :| 0 <= i < |init| && init[i].status == x;
          assert as_[i].status == x;
        }
      }
      r
  }

  /** How many enrolment rows reference program `id`. */
  function CountEnrolled(es: seq<Enrolment>, id: int): nat {
    if |es| == 0 then 0
    else (if es[0].programId == id then 1 else 0) + CountEnrolled(es[1..], id)
  }

  /** The beneficiaries enrolled in program `id`. */
  ghost function EnrolledIn(es: seq<Enrolment>, id: int): set<int> {
    set e | e in es && e.programId == id :: e.beneficiaryId
  }

  /**
   The left join's count is a count of distinct beneficiaries: with the
   composite key, no beneficiary is enrolled in the same program twice.
   */
  lemma {:induction false} CountEnrolledIsDistinctBeneficiaries(es: seq<Enrolment>, id: int)
    requires EnrolmentKeyUnique(es)
    ensures CountEnrolled(es, id) == |EnrolledIn(es, id)|
  {
    if |es| == 0 {
      assert EnrolledIn(es, id) == {};
    } else {
      var rest := es[1..];
      assert EnrolmentKeyUnique(rest) by {
        forall i, j | 0 <= i < j < |rest| ensures rest[i] != rest[j] {
          assert rest[i] == es[i + 1] && rest[j] == es[j + 1];
        }
      }
      CountEnrolledIsDistinctBeneficiaries(rest, id);
      assert es == [es[0]] + rest;
      if es[0].programId == id {
        assert EnrolledIn(es, id) == {es[0].beneficiaryId} + EnrolledIn(rest, id);
        assert es[0].beneficiaryId !in EnrolledIn(rest, id);
      } else {
        assert EnrolledIn(es, id) == EnrolledIn(rest, id);
      }
    }
  }

  /**
   `programs p LEFT JOIN beneficiary_programs bp ... GROUP BY p.name`: one
   row per program, in table order, a program without enrolments counting 0.
   Grouping by name is grouping by program because names are unique.
   */
  function ProgramCounts(ps: seq<Program>, es: seq<Enrolment>): (r: seq<ProgramCount>)
    ensures |r| == |ps|
    ensures forall i :: 0 <= i < |ps| ==> r[i].name == ps[i].name && r[i].count == CountEnrolled(es, ps[i].id)
  {
    seq(|ps|, i requires 0 <= i < |ps| => ProgramCount(ps[i].name, CountEnrolled(es, ps[i].id)))
  }

  /** The first failing sub-query in declaration order. */
  function FirstFailure(failing: set<Query>): (q: Query)
    requires failing != {}
    ensures q in failing
  {
    if TotalBeneficiaries in failing then TotalBeneficiaries
    else if TotalAppointments in failing then TotalAppointments
    else if AppointmentsByStatus in failing then AppointmentsByStatus
    else
      assert forall q :: q in failing ==> q == BeneficiariesByProgram;
      BeneficiariesByProgram
  }

  /**
   The report over the current store, given which sub-queries the driver
   fails. It is sent only when none fails; otherwise the error names a
   failing sub-query and no partial report exists.
   */
  function Stats(s: Store, failing: set<Query>): (r: Result<Report, DbError>)
    ensures r.Ok? <==> failing == {}
    ensures r.Err? ==> exists q :: q in failing && r.error == StorageFailed(Key(q))
    ensures r.Ok? ==>
              && r.value.totalBeneficiaries == |s.beneficiaries|
              && r.value.totalAppointments == |s.appointments|
              && DistinctGroups(r.value.appointmentsByStatus)
              && NonEmptyGroups(r.value.appointmentsByStatus)
              && (forall x :: HasGroup(r.value.appointmentsByStatus, x) <==> StatusPresent(s.appointments, x))
              && (forall x :: GroupCount(r.value.appointmentsByStatus, x) == CountStatus(s.appointments, x))
              && Total(r.value.appointmentsByStatus) == r.value.totalAppointments
              && |r.value.beneficiariesByProgram| == |s.programs|
              && (forall i :: 0 <= i < |s.programs| ==>
                    r.value.beneficiariesByProgram[i] == ProgramCount(s.programs[i].name, CountEnrolled(s.enrolments, s.programs[i].id)))
  {
    if failing != {} then Err(StorageFailed(Key(FirstFailure(failing))))
    else Ok(Report(|s.beneficiaries|, |s.appointments|, GroupByStatus(s.appointments), ProgramCounts(s.programs, s.enrolments)))
  }

  /** On a valid store each program's figure is the number of distinct beneficiaries enrolled in it. */
  lemma ProgramFiguresCountBeneficiaries(s: Store, i: int)
    requires Valid(s)
    requires 0 <= i < |s.programs|
    ensures Stats(s, {}).value.beneficiariesByProgram[i].count == |EnrolledIn(s.enrolments, s.programs[i].id)|
  {
    CountEnrolledIsDistinctBeneficiaries(s.enrolments, s.programs[i].id);
  }

  /** The left join keeps a program nobody is enrolled in, with a figure of 0. */
  lemma UnenrolledProgramReportsZero(s: Store, i: int)
    requires Valid(s)
    requires 0 <= i < |s.programs|
    requires forall e :: e in s.enrolments ==> e.programId != s.programs[i].id
    ensures Stats(s, {}).value.beneficiariesByProgram[i] == ProgramCount(s.programs[i].name, 0)
  {
    CountEnrolledIsDistinctBeneficiaries(s.enrolments, s.programs[i].id);
    assert EnrolledIn(s.enrolments, s.programs[i].id) == {};
  }
}
