/**
 How the routes' effects meet: what a delete on one table means for the
 listings and figures computed from the others. Without enforced foreign
 keys nothing cascades except the enrolment cleanup the program delete
 does by hand.
 */
module RouteInterplay {
  import opened Wrappers
  import opened Schema
  import BeneficiaryRoutes
  import ProgramRoutes
  import AppointmentRoutes
  import ReportRoutes

  /**
   Deleting a beneficiary leaves their appointments in the table: the
   appointment total is unchanged, yet the listing's inner join no longer
   shows any of them, and the listing never shows more rows than the total.
   */
  lemma BeneficiaryDeleteOrphansAppointments(s: Store, id: int)
    ensures var s' := BeneficiaryRoutes.Delete(s, id).store;
            && s'.appointments == s.appointments
            && ReportRoutes.Stats(s', {}).value.totalAppointments == ReportRoutes.Stats(s, {}).value.totalAppointments
            && (forall row :: row in AppointmentRoutes.List(s', None, None) ==> row.beneficiaryId != id)
            && |AppointmentRoutes.List(s', None, None)| <= ReportRoutes.Stats(s', {}).value.totalAppointments
  {
    var s' := BeneficiaryRoutes.Delete(s, id).store;
    forall row | row in AppointmentRoutes.List(s', None, None) ensures row.beneficiaryId != id {
      var a :| a in s'.appointments && AppointmentRoutes.Shown(s'.beneficiaries, a, None, None)
               && row == AppointmentRoutes.RowFor(s'.beneficiaries, a);
      var b := FindBeneficiary(s'.beneficiaries, a.beneficiaryId).value;
      assert b in s'.beneficiaries;
    }
  }

  /** Removing one program's enrolments leaves every other program's count as it was. */
  lemma {:induction false} CleanupKeepsOtherCounts(es: seq<Enrolment>, id: int, other: int)
    requires other != id
    ensures ReportRoutes.CountEnrolled(ProgramRoutes.WithoutEnrolmentsOf(es, id), other)
            == ReportRoutes.CountEnrolled(es, other)
  {
    if |es| > 0 {
      CleanupKeepsOtherCounts(es[1..], id, other);
      var rest := ProgramRoutes.WithoutEnrolmentsOf(es[1..], id);
      if es[0].programId != id {
        assert ([es[0]] + rest)[1..] == rest;
      }
    }
  }

  /**
   A completed program delete removes that program's line from the report
   and changes no other program's figure.
   */
  lemma ProgramDeleteKeepsOtherFigures(s: Store, id: int)
    ensures var s' := ProgramRoutes.Delete(s, id, ProgramRoutes.NoFault).store;
            forall p :: p in s'.programs ==>
              && p.id != id
              && ReportRoutes.CountEnrolled(s'.enrolments, p.id) == ReportRoutes.CountEnrolled(s.enrolments, p.id)
  {
    var s' := ProgramRoutes.Delete(s, id, ProgramRoutes.NoFault).store;
    forall p | p in s'.programs
      ensures ReportRoutes.CountEnrolled(s'.enrolments, p.id) == ReportRoutes.CountEnrolled(s.enrolments, p.id)
    {
      CleanupKeepsOtherCounts(s.enrolments, id, p.id);
    }
  }
}
