/**
 The secretary's dashboard: the figures it derives from the report the
 stats route answers with. Keys the route does not send are read as
 absent and fall back to 0 or to an empty list.
 */
module SecretaryDashboard {
  import opened Wrappers
  import opened Schema
  import opened ReportRoutes
  import ServerDashboard

  /** An entry of the recent-activity feed. */
  datatype Activity = Activity(id: int, text: string, time: string, kind: string)

  /** The response's `data` object as the page reads it: any key may be missing. */
  datatype Fetched = Fetched(
    totalBeneficiaries: Option<int>,
    totalFamilies: Option<int>,
    appointmentsByStatus: Option<seq<StatusCount>>,
    courseEngagement: Option<int>,
    beneficiariesByProgram: Option<seq<ProgramCount>>,
    recentActivity: Option<seq<Activity>>)

  /** A chart entry `{ name, value }`. */
  datatype Slice<N> = Slice(name: N, value: nat)

  /** The state the page renders. */
  datatype Figures = Figures(
    totalBeneficiarios: Option<int>,
    totalFamilias: int,
    tarefasConcluidasMes: nat,
    mediaEngajamentoCursos: int,
    tasksByStatus: seq<Slice<Option<string>>>,
    coursesByCategory: seq<Slice<string>>,
    recentActivity: seq<Activity>)

  /** `GroupCount` is the count of the first group with the status, and 0 when no group has it. */
  lemma {:induction false} GroupCountIsFirstMatch(gs: seq<StatusCount>, status: Option<string>)
    ensures (forall i :: 0 <= i < |gs| ==> gs[i].status != status) ==> GroupCount(gs, status) == 0
    ensures forall i :: 0 <= i < |gs| && gs[i].status == status && (forall j :: 0 <= j < i ==> gs[j].status != status)
                        ==> GroupCount(gs, status) == gs[i].count
  {
    if |gs| > 0 {
      GroupCountIsFirstMatch(gs[1..], status);
      forall i | 0 <= i < |gs| && gs[i].status == status && (forall j :: 0 <= j < i ==> gs[j].status != status)
        ensures GroupCount(gs, status) == gs[i].count
      {
        if i > 0 {
          assert gs[1..][i - 1] == gs[i];
          assert forall j :: 0 <= j < i - 1 ==> gs[1..][j].status != status by {
            forall j | 0 <= j < i - 1 ensures gs[1..][j].status != status {
              assert gs[1..][j] == gs[j + 1];
            }
          }
        }
      }
      if forall i :: 0 <= i < |gs| ==> gs[i].status != status {
        assert forall i :: 0 <= i < |gs[1..]| ==> gs[1..][i].status != status by {
          forall i | 0 <= i < |gs[1..]| ensures gs[1..][i].status != status {
            assert gs[1..][i] == gs[i + 1];
          }
        }
      }
    }
  }

  /**
   `setStats({...})`: the totals pass through, with a missing family count
   or engagement read as 0; the completed figure is the count of the first
   status group for "Realizado", or 0; each list maps element-wise to chart
   entries in the same order, and a missing list becomes empty.
   */
  function Project(f: Fetched): (r: Figures)
    ensures r.totalBeneficiarios == f.totalBeneficiaries
    ensures f.totalFamilies.None? ==> r.totalFamilias == 0
    ensures f.totalFamilies.Some? ==> r.totalFamilias == f.totalFamilies.value
    ensures f.courseEngagement.None? ==> r.mediaEngajamentoCursos == 0
    ensures f.courseEngagement.Some? ==> r.mediaEngajamentoCursos == f.courseEngagement.value
    ensures f.appointmentsByStatus.None? ==> r.tarefasConcluidasMes == 0 && r.tasksByStatus == []
    ensures f.appointmentsByStatus.Some? ==>
              var gs := f.appointmentsByStatus.value;
              && ((forall i :: 0 <= i < |gs| ==> gs[i].status != Some(ServerDashboard.Done)) ==> r.tarefasConcluidasMes == 0)
              && (forall i :: 0 <= i < |gs| && gs[i].status == Some(ServerDashboard.Done)
                             && (forall j :: 0 <= j < i ==> gs[j].status != Some(ServerDashboard.Done))
                             ==> r.tarefasConcluidasMes == gs[i].count)
              && |r.tasksByStatus| == |gs|
              && (forall i :: 0 <= i < |gs| ==> r.tasksByStatus[i] == Slice(gs[i].status, gs[i].count))
    ensures f.beneficiariesByProgram.None? ==> r.coursesByCategory == []
    ensures f.beneficiariesByProgram.Some? ==>
              var ps := f.beneficiariesByProgram.value;
              && |r.coursesByCategory| == |ps|
              && (forall i :: 0 <= i < |ps| ==> r.coursesByCategory[i] == Slice(ps[i].name, ps[i].count))
    ensures f.recentActivity.None? ==> r.recentActivity == []
    ensures f.recentActivity.Some? ==> r.recentActivity == f.recentActivity.value
  {
    var gs := f.appointmentsByStatus.GetOr([]);
    var ps := f.beneficiariesByProgram.GetOr([]);
    GroupCountIsFirstMatch(gs, Some(ServerDashboard.Done));
    Figures(
      f.totalBeneficiaries,
      f.totalFamilies.GetOr(0),
      GroupCount(gs, Some(ServerDashboard.Done)),
      f.courseEngagement.GetOr(0),
      seq(|gs|, i requires 0 <= i < |gs| => Slice(gs[i].status, gs[i].count)),
      seq(|ps|, i requires 0 <= i < |ps| => Slice(ps[i].name, ps[i].count)),
      f.recentActivity.GetOr([]))
  }

  /** The "Programas Ativos" card. */
  function ActivePrograms(r: Figures): nat {
    |r.coursesByCategory|
  }

  /** The JSON the stats route sends: its four keys, none of the optional ones. */
  function Received(report: Report): (f: Fetched)
    ensures f.totalBeneficiaries == Some(report.totalBeneficiaries as int)
    ensures f.appointmentsByStatus == Some(report.appointmentsByStatus)
    ensures f.beneficiariesByProgram == Some(report.beneficiariesByProgram)
    ensures f.totalFamilies.None? && f.courseEngagement.None? && f.recentActivity.None?
  {
    Fetched(Some(report.totalBeneficiaries), None, Some(report.appointmentsByStatus), None,
            Some(report.beneficiariesByProgram), None)
  }

  /**
   Against a successful report on the store, the cards show the number of
   beneficiaries, no families, the number of appointments whose status is
   "Realizado" and, thanks to the left join, the number of programs.
   */
  lemma CardsReflectStore(s: Store)
    ensures var r := Project(Received(Stats(s, {}).value));
            && r.totalBeneficiarios == Some(|s.beneficiaries|)
            && r.totalFamilias == 0
            && r.tarefasConcluidasMes == CountStatus(s.appointments, Some(ServerDashboard.Done))
            && ActivePrograms(r) == |s.programs|
            && |r.tasksByStatus| == |GroupByStatus(s.appointments)|
  {
  }
}
