/**
 The server's kanban board: the fetched appointments ("tasks") split into
 three status columns, each card's "move to" menu, the status change a
 card sends, the create form's payload and the card's description
 preview. The network is a parameter: whether a request succeeded is
 given, not computed.
 */
module ServerDashboard {
  import opened Wrappers
  import opened Schema
  import Seqs
  import Numerals
  import AppointmentRoutes

  /** A task as the board receives it; `status` is any string the server sends. */
  datatype Task = Task(id: int, title: string, description: string, status: string, priority: string, date: string)

  const Pending := "Pendente"
  const InProgress := "Em Andamento"
  const Done := "Realizado"

  /** The board's three statuses, in column order. */
  const Statuses := [Pending, InProgress, Done]

  /** `user?.token` is truthy: a user is signed in and the token is not empty. */
  predicate HasToken(token: Option<string>) {
    token.Some? && token.value != ""
  }

  /** One column: the tasks whose status is exactly `status`, in fetched order. */
  function Column(tasks: seq<Task>, status: string): (r: seq<Task>)
    ensures forall t :: t in r <==> t in tasks && t.status == status
    ensures forall i :: 0 <= i < |r| ==> r[i].status == status
    ensures forall t :: multiset(r)[t] == if t.status == status then multiset(tasks)[t] else 0
    ensures Seqs.IsSubseq(r, tasks)
  {
    Seqs.Filter(tasks, (t: Task) => t.status == status)
  }

  /** The tasks no column shows, such as those still carrying the API's default status. */
  function Unplaced(tasks: seq<Task>): (r: seq<Task>)
    ensures forall t :: t in r <==> t in tasks && t.status !in Statuses
    ensures forall t :: multiset(r)[t] == if t.status !in Statuses then multiset(tasks)[t] else 0
  {
    Seqs.Filter(tasks, (t: Task) => t.status !in Statuses)
  }

  datatype Board = Board(pending: seq<Task>, inProgress: seq<Task>, done: seq<Task>)

  /**
   The board: each column holds exactly the tasks of its status in fetched
   order, no task sits in two columns, and a task whose status is not one
   of the three sits in none. A column's badge is its length.
   */
  function Columns(tasks: seq<Task>): (b: Board)
    ensures forall t :: t in b.pending <==> t in tasks && t.status == Pending
    ensures forall t :: t in b.inProgress <==> t in tasks && t.status == InProgress
    ensures forall t :: t in b.done <==> t in tasks && t.status == Done
    ensures Seqs.IsSubseq(b.pending, tasks) && Seqs.IsSubseq(b.inProgress, tasks) && Seqs.IsSubseq(b.done, tasks)
    ensures forall t :: !(t in b.pending && t in b.inProgress) && !(t in b.pending && t in b.done)
                        && !(t in b.inProgress && t in b.done)
    ensures forall t :: t in tasks && t.status !in Statuses ==>
                        t !in b.pending && t !in b.inProgress && t !in b.done
  {
    Board(Column(tasks, Pending), Column(tasks, InProgress), Column(tasks, Done))
  }

  /** A column over a non-empty list: the head's contribution plus the column over the rest. */
  lemma ColumnStep(tasks: seq<Task>, status: string)
    requires |tasks| > 0
    ensures |Column(tasks, status)| == |Column(tasks[1..], status)| + (if tasks[0].status == status then 1 else 0)
  {
  }

  lemma UnplacedStep(tasks: seq<Task>)
    requires |tasks| > 0
    ensures |Unplaced(tasks)| == |Unplaced(tasks[1..])| + (if tasks[0].status !in Statuses then 1 else 0)
  {
  }

  /** Every status lands in exactly one place: one of the three columns, or none of them. */
  lemma OnePlace(status: string)
    ensures (if status == Pending then 1 else 0) + (if status == InProgress then 1 else 0)
            + (if status == Done then 1 else 0) + (if status !in Statuses then 1 else 0) == 1
  {
    assert Pending != InProgress && Pending != Done && InProgress != Done by {
      assert |Pending| == 8 && |InProgress| == 12 && |Done| == 9;
    }
  }

  /** The three badges and the unplaced tasks together account for every fetched task. */
  lemma {:induction false} BadgesAccountForEveryTask(tasks: seq<Task>)
    ensures |Column(tasks, Pending)| + |Column(tasks, InProgress)| + |Column(tasks, Done)| + |Unplaced(tasks)| == |tasks|
  {
    if |tasks| > 0 {
      BadgesAccountForEveryTask(tasks[1..]);
      ColumnStep(tasks, Pending);
      ColumnStep(tasks, InProgress);
      ColumnStep(tasks, Done);
      UnplacedStep(tasks);
      OnePlace(tasks[0].status);
    }
  }

  /** Each of `[a, b, c]` with at most one element left out keeps the others' order. */
  lemma DropOneSubseqs<T>(a: T, b: T, c: T)
    requires a != b && b != c && a != c
    ensures Seqs.IsSubseq([a, b, c], [a, b, c])
    ensures Seqs.IsSubseq([b, c], [a, b, c])
    ensures Seqs.IsSubseq([a, c], [a, b, c])
    ensures Seqs.IsSubseq([a, b], [a, b, c])
  {
    var s := [a, b, c];
    Seqs.SubseqReflexive(s);
    Seqs.SubseqReflexive([b, c]);
    assert s[1..] == [b, c];
    Seqs.SubseqExtend([b, c], s);
    Seqs.SubseqReflexive([c]);
    assert [b, c][1..] == [c];
    Seqs.SubseqExtend([c], [b, c]);
    assert [a, c][1..] == [c];
    Seqs.PrefixSubseq([a, b], s);
  }

  /** The move menu: the three statuses in column order, minus the card's current status. */
  function MoveOptions(status: string): (r: seq<string>)
    ensures forall x :: x in r <==> x in Statuses && x != status
    ensures |r| == if status in Statuses then 2 else 3
    ensures Seqs.IsSubseq(r, Statuses)
  {
    DropOneSubseqs(Pending, InProgress, Done);
    (if status != Pending then [Pending] else [])
    + (if status != InProgress then [InProgress] else [])
    + (if status != Done then [Done] else [])
  }

  /** `PATCH /appointments/{taskId}/status` with the JSON body `{ status }`. */
  datatype StatusPatch = StatusPatch(taskId: int, status: string)

  datatype Toast = Success(message: string) | Error(message: string)

  /** What choosing a menu entry does: the request sent, whether the board refetches, the menu, the toast. */
  datatype ChangeEffect = ChangeEffect(request: Option<StatusPatch>, refresh: bool, dropdownOpen: bool, toast: Option<Toast>)

  /**
   `handleStatusChange`. Without a token nothing happens at all. With one,
   exactly the patch for this task and status is sent; the board refetches
   only when it succeeded, and the menu closes either way.
   */
  function StatusChange(token: Option<string>, task: Task, newStatus: string, dropdownOpen: bool, succeeded: bool)
    : (r: ChangeEffect)
    ensures r.request.Some? <==> HasToken(token)
    ensures r.request.Some? ==> r.request.value == StatusPatch(task.id, newStatus)
    ensures r.refresh <==> HasToken(token) && succeeded
    ensures !HasToken(token) ==> r == ChangeEffect(None, false, dropdownOpen, None)
    ensures HasToken(token) ==> !r.dropdownOpen && r.toast.Some? && (r.toast.value.Success? <==> succeeded)
  {
    if !HasToken(token) then ChangeEffect(None, false, dropdownOpen, None)
    else if succeeded then
      ChangeEffect(Some(StatusPatch(task.id, newStatus)), true, false, Some(Success("Tarefa movida para \"" + newStatus + "\"")))
    else
      ChangeEffect(Some(StatusPatch(task.id, newStatus)), false, false, Some(Error("Erro ao atualizar tarefa")))
  }

  /** The create form's fields; a `<select>` yields its option's value as a string. */
  datatype FormInputs = FormInputs(title: string, description: string, priority: string, beneficiaryId: string, date: string)

  /** A JavaScript number as far as `Number(...)` of a form value goes: an integer or NaN. */
  datatype JsNumber = Num(n: int) | NaN

  /** `Number(s)` for the strings a form can hold: empty is 0, decimal digits are their value. */
  function ToNumber(s: string): (r: JsNumber)
    ensures s == "" ==> r == Num(0)
    ensures r.Num? ==> Numerals.AllDigits(s) && 0 <= r.n
    ensures Numerals.AllDigits(s) ==> r == Num(Numerals.ReadNat(s))
  {
    if Numerals.AllDigits(s) then Num(Numerals.ReadNat(s)) else NaN
  }

  /** A beneficiary option's value is its id written out, and converts back to that id. */
  lemma OptionValueConvertsBack(id: nat)
    ensures ToNumber(Numerals.ShowNat(id)) == Num(id)
  {
    Numerals.ReadShow(id);
  }

  /** `{ ...data, beneficiary_id: Number(data.beneficiary_id) }`. */
  datatype AppointmentPayload = AppointmentPayload(title: string, description: string, priority: string,
                                                   beneficiaryId: JsNumber, date: string)

  /** `onSubmit`: nothing is sent without a token; otherwise the form's fields with the id converted. */
  function CreatePayload(token: Option<string>, data: FormInputs): (r: Option<AppointmentPayload>)
    ensures r.Some? <==> HasToken(token)
    ensures r.Some? ==>
              && r.value.title == data.title && r.value.description == data.description
              && r.value.priority == data.priority && r.value.date == data.date
              && r.value.beneficiaryId == ToNumber(data.beneficiaryId)
  {
    if HasToken(token) then
      Some(AppointmentPayload(data.title, data.description, data.priority, ToNumber(data.beneficiaryId), data.date))
    else None
  }

  /**
   The payload as the API reads it: JSON turns NaN into null, and the
   payload has no `time`, `server_id`, `reason` or `status` key.
   */
  function ApiBody(p: AppointmentPayload): (b: AppointmentRoutes.AppointmentBody)
    ensures b.time.None? && b.date == Some(p.date)
    ensures b.beneficiaryId.Some? <==> p.beneficiaryId.Num?
  {
    AppointmentRoutes.AppointmentBody(
      if p.beneficiaryId.Num? then Some(p.beneficiaryId.n) else None,
      None, Some(p.date), None, None, None)
  }

  /**
   The form never sends a time, so the API's create refuses every payload
   it produces and the store is left as it was.
   */
  lemma DashboardCreateIsRefused(s: Store, token: Option<string>, data: FormInputs)
    requires HasToken(token)
    ensures var r := AppointmentRoutes.Create(s, ApiBody(CreatePayload(token, data).value));
            && r.store == s
            && r.result.Err?
            && (Numerals.AllDigits(data.beneficiaryId) ==> r.result == Err(NotNullFailed("appointments.time")))
  {
  }

  /**
   The card's preview text, `description.substring(0, 70)`: a prefix of at
   most 70 characters. The card always renders "..." after it.
   */
  function Preview(description: string): (r: string)
    ensures |r| <= 70
    ensures r <= description
    ensures |description| <= 70 ==> r == description
    ensures |description| > 70 ==> |r| == 70
  {
    if |description| <= 70 then description else description[..70]
  }
}
