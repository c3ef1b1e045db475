/**
 The `/api/programs` routes. Create and rename check the name themselves
 before the store is touched (`if (!name)`: absent or empty); the UNIQUE
 constraint on `programs.name` does the rest. Delete runs two statements
 without a transaction: first the program's enrolments, then the program
 row, and each step can fail on its own.
 */
module ProgramRoutes {
  import opened Wrappers
  import opened Schema
  import Seqs
  import Sorting
  import Text

  /** The handler's own guard: a name that is absent or the empty string. */
  predicate NameMissing(name: Option<string>) {
    name.None? || name.value == ""
  }

  /** Some program holds `name`. */
  predicate NameHeld(ps: seq<Program>, name: string) {
    exists i :: 0 <= i < |ps| && ps[i].name == name
  }

  /** Some program other than `id` holds `name`. */
  predicate NameHeldByOther(ps: seq<Program>, name: string, id: int) {
    exists i :: 0 <= i < |ps| && ps[i].name == name && ps[i].id != id
  }

  /** `ORDER BY name` under the BINARY collation. */
  function NameLe(a: Program, b: Program): bool {
    Text.Le(a.name, b.name)
  }

  lemma NameLeIsTotalPreorder()
    ensures Sorting.TotalPreorder(NameLe)
  {
    forall a: Program, b: Program ensures NameLe(a, b) || NameLe(b, a) {
      Text.LeTotal(a.name, b.name);
    }
    forall a: Program, b: Program, c: Program | NameLe(a, b) && NameLe(b, c) ensures NameLe(a, c) {
      Text.LeTransitive(a.name, b.name, c.name);
    }
  }

  /** `GET /api/programs`: every program once, sorted by name. */
  function List(s: Store): (r: seq<Program>)
    ensures Sorting.SortedBy(r, NameLe)
    ensures multiset(r) == multiset(s.programs)
  {
    NameLeIsTotalPreorder();
    Sorting.Sort(s.programs, NameLe)
  }

  /**
   `POST /api/programs`. A missing or empty name is refused before the
   store is read; a name another program holds violates UNIQUE; otherwise
   one row with the next AUTOINCREMENT key is appended.
   */
  function Create(s: Store, name: Option<string>): (r: Reply<int>)
    ensures NameMissing(name) ==> r == Reply(s, Err(NameRequired))
    ensures !NameMissing(name) && NameHeld(s.programs, name.value) ==>
              r == Reply(s, Err(UniqueFailed("programs.name")))
    ensures !NameMissing(name) && !NameHeld(s.programs, name.value) ==> r.result.Ok?
    ensures r.result.Err? ==> r.store == s
    ensures r.result.Ok? ==>
              && !NameMissing(name) && !NameHeld(s.programs, name.value)
              && r.result.value == s.programSeq + 1
              && r.store.programs == s.programs + [Program(r.result.value, name.value)]
              && r.store == s.(programs := r.store.programs, programSeq := r.result.value)
  {
    if NameMissing(name) then Reply(s, Err(NameRequired))
    else if NameHeld(s.programs, name.value) then Reply(s, Err(UniqueFailed("programs.name")))
    else
      var id := s.programSeq + 1;
      Reply(s.(programs := s.programs + [Program(id, name.value)], programSeq := id), Ok(id))
  }

  /**
   `PUT /api/programs/:id`. The name guard comes first, so a missing name
   is refused even for an unknown id. A known id is renamed unless another
   program holds the name; keeping one's own name is allowed.
   */
  function Rename(s: Store, id: int, name: Option<string>): (r: Reply<nat>)
    ensures NameMissing(name) ==> r == Reply(s, Err(NameRequired))
    ensures !NameMissing(name) && !HasProgram(s.programs, id) ==> r == Reply(s, Ok(0))
    ensures !NameMissing(name) && HasProgram(s.programs, id) && NameHeldByOther(s.programs, name.value, id) ==>
              r == Reply(s, Err(UniqueFailed("programs.name")))
    ensures !NameMissing(name) && HasProgram(s.programs, id) && !NameHeldByOther(s.programs, name.value, id) ==>
              r.result == Ok(1)
    ensures r.result.Err? ==> r.store == s
    ensures r.result == Ok(1) ==>
              && !NameMissing(name)
              && |r.store.programs| == |s.programs|
              && (forall i :: 0 <= i < |s.programs| ==>
                    r.store.programs[i] == if s.programs[i].id == id then Program(id, name.value) else s.programs[i])
              && r.store == s.(programs := r.store.programs)
    ensures r.result.Ok? ==> r.result.value == 1 || r.store == s
  {
    if NameMissing(name) then Reply(s, Err(NameRequired))
    else if !HasProgram(s.programs, id) then Reply(s, Ok(0))
    else if NameHeldByOther(s.programs, name.value, id) then Reply(s, Err(UniqueFailed("programs.name")))
    else
      var ps := s.programs;
      var renamed := seq(|ps|, i requires 0 <= i < |ps| => if ps[i].id == id then Program(id, name.value) else ps[i]);
      Reply(s.(programs := renamed), Ok(1))
  }

  /** `DELETE FROM beneficiary_programs WHERE program_id = ?`. */
  function WithoutEnrolmentsOf(es: seq<Enrolment>, id: int): (r: seq<Enrolment>)
    ensures forall e :: e in r <==> e in es && e.programId != id
    ensures Seqs.IsSubseq(r, es)
  {
    Seqs.Filter(es, (e: Enrolment) => e.programId != id)
  }

  /** `DELETE FROM programs WHERE id = ?`. */
  function WithoutProgram(ps: seq<Program>, id: int): (r: seq<Program>)
    ensures forall p :: p in r <==> p in ps && p.id != id
    ensures Seqs.IsSubseq(r, ps)
    ensures |r| <= |ps|
  {
    Seqs.Filter(ps, (p: Program) => p.id != id)
  }

  /** Which of the two statements of a program delete the driver fails, if any. */
  datatype DeleteFault = NoFault | CleanupFails | RowDeleteFails

  /**
   `DELETE /api/programs/:id`. If the enrolment cleanup fails nothing is
   removed. Otherwise every enrolment of the program goes and every other
   enrolment stays, in order; then, unless the second statement fails, the
   program row goes too and the reply counts the rows removed from
   `programs`. Beneficiaries and appointments are never touched.
   */
  function Delete(s: Store, id: int, fault: DeleteFault): (r: Reply<nat>)
    ensures fault == CleanupFails ==> r == Reply(s, Err(StorageFailed("beneficiary_programs")))
    ensures fault != CleanupFails ==>
              && (forall e :: e in r.store.enrolments <==> e in s.enrolments && e.programId != id)
              && Seqs.IsSubseq(r.store.enrolments, s.enrolments)
    ensures fault == RowDeleteFails ==>
              && r.result == Err(StorageFailed("programs"))
              && r.store.programs == s.programs
    ensures fault == NoFault ==>
              && (forall p :: p in r.store.programs <==> p in s.programs && p.id != id)
              && Seqs.IsSubseq(r.store.programs, s.programs)
              && r.result == Ok(|s.programs| - |r.store.programs|)
    ensures r.store == s.(enrolments := r.store.enrolments, programs := r.store.programs)
  {
    if fault == CleanupFails then Reply(s, Err(StorageFailed("beneficiary_programs")))
    else
      var cleaned := s.(enrolments := WithoutEnrolmentsOf(s.enrolments, id));
      if fault == RowDeleteFails then Reply(cleaned, Err(StorageFailed("programs")))
      else
        var kept := WithoutProgram(s.programs, id);
        Reply(cleaned.(programs := kept), Ok(|s.programs| - |kept|))
  }

  lemma CreatePreservesValid(s: Store, name: Option<string>)
    requires Valid(s)
    ensures Valid(Create(s, name).store)
  {
    var r := Create(s, name);
    if r.result.Ok? {
      var ps := r.store.programs;
      forall i, j | 0 <= i < j < |ps| ensures ps[i].name != ps[j].name {
        if j == |ps| - 1 {
          assert ps[i] == s.programs[i];
        }
      }
    }
  }

  lemma RenamePreservesValid(s: Store, id: int, name: Option<string>)
    requires Valid(s)
    ensures Valid(Rename(s, id, name).store)
  {
    var r := Rename(s, id, name);
    if r.result == Ok(1) {
      var ps := s.programs;
      var ps' := r.store.programs;
      forall i, j | 0 <= i < j < |ps'| ensures ps'[i].name != ps'[j].name && ps'[i].id < ps'[j].id {
        assert ps'[i].id == ps[i].id && ps'[j].id == ps[j].id;
        if ps[i].id == id {
          assert ps[j].id != id;
        }
      }
    }
  }

  /** Whatever step fails, a program delete leaves a store that meets every constraint. */
  lemma DeletePreservesValid(s: Store, id: int, fault: DeleteFault)
    requires Valid(s)
    ensures Valid(Delete(s, id, fault).store)
  {
    var r := Delete(s, id, fault);
    if fault != CleanupFails {
      Seqs.FilterPairwise(s.enrolments, (e: Enrolment) => e.programId != id, (a: Enrolment, b: Enrolment) => a != b);
    }
    if fault == NoFault {
      var keep := (p: Program) => p.id != id;
      Seqs.FilterPairwise(s.programs, keep, (a: Program, b: Program) => a.id < b.id);
      Seqs.FilterPairwise(s.programs, keep, (a: Program, b: Program) => a.name != b.name);
      var ps' := r.store.programs;
      forall i | 0 <= i < |ps'| ensures 0 < ps'[i].id <= s.programSeq {
        assert ps'[i] in s.programs;
      }
    }
  }

  /** On a valid store a completed delete reports one change exactly when the program existed. */
  lemma DeleteReportsOneChange(s: Store, id: int)
    requires Valid(s)
    ensures Delete(s, id, NoFault).result == Ok(if HasProgram(s.programs, id) then 1 else 0)
  {
    var ps := s.programs;
    var keep := (p: Program) => p.id != id;
    if HasProgram(ps, id) {
      var k :| 0 <= k < |ps| && ps[k].id == id;
      Seqs.FilterDropsOne(ps, keep, k);
    } else {
      Seqs.FilterAll(ps, keep);
    }
  }
}
