/**
 The `/api/beneficiaries` routes: search, fetch by id, create, update and
 delete, each a transition of the store. The handlers do no validation of
 their own; every error comes from a constraint of the `beneficiaries`
 table, checked in column order (NOT NULL on `name`, then on `cpf`, then
 UNIQUE on `cpf`). An UPDATE or DELETE whose `WHERE id = ?` matches no row
 touches nothing, so no constraint is checked and it reports 0 changes.
 */
module BeneficiaryRoutes {
  import opened Wrappers
  import opened Schema
  import Seqs
  import Text

  /** The JSON request body; a field the client left out is `None` and reaches SQL as NULL. */
  datatype BeneficiaryBody = BeneficiaryBody(
    name: Option<string>,
    cpf: Option<string>,
    nis: Option<string>,
    birthDate: Option<string>,
    address: Option<string>,
    phone: Option<string>)

  /** `name LIKE '%term%' OR cpf LIKE '%term%'`, read as plain substring match. */
  predicate Matches(b: Beneficiary, term: string) {
    Text.Contains(b.name, term) || Text.Contains(b.cpf, term)
  }

  /** Some row other than `id` already holds `cpf`. */
  predicate CpfHeldByOther(bs: seq<Beneficiary>, cpf: string, id: int) {
    exists i :: 0 <= i < |bs| && bs[i].cpf == cpf && bs[i].id != id
  }

  /** Some row holds `cpf`. */
  predicate CpfHeld(bs: seq<Beneficiary>, cpf: string) {
    exists i :: 0 <= i < |bs| && bs[i].cpf == cpf
  }

  /** The row a body describes, for the given key; requires the NOT NULL columns present. */
  function RowOf(id: int, body: BeneficiaryBody): Beneficiary
    requires body.name.Some? && body.cpf.Some?
  {
    Beneficiary(id, body.name.value, body.cpf.value, body.nis, body.birthDate, body.address, body.phone)
  }

  /**
   `GET /api/beneficiaries?search=term`. A missing or empty term lists the
   whole table; otherwise exactly the rows whose name or cpf contains it,
   in table order.
   */
  function Search(s: Store, search: Option<string>): (r: seq<Beneficiary>)
    ensures search.None? || search == Some("") ==> r == s.beneficiaries
    ensures search.Some? ==> forall b :: b in r <==> b in s.beneficiaries && Matches(b, search.value)
    ensures search.Some? ==> forall b ::
              multiset(r)[b] == if Matches(b, search.value) then multiset(s.beneficiaries)[b] else 0
    ensures Seqs.IsSubseq(r, s.beneficiaries)
  {
    match search
    case Some(term) =>
      if term == "" then
        assert forall b :: Matches(b, term);
        Seqs.SubseqReflexive(s.beneficiaries);
        s.beneficiaries
      else Seqs.Filter(s.beneficiaries, b => Matches(b, term))
    case None =>
      Seqs.SubseqReflexive(s.beneficiaries);
      s.beneficiaries
  }

  /** `GET /api/beneficiaries/:id`: the row with that key, or not-found. */
  function Get(s: Store, id: int): (r: Result<Beneficiary, DbError>)
    ensures r.Ok? <==> HasBeneficiary(s.beneficiaries, id)
    ensures r.Ok? ==> r.value in s.beneficiaries && r.value.id == id
    ensures r.Err? ==> r.error == NotFound
  {
    match FindBeneficiary(s.beneficiaries, id)
    case Some(b) => Ok(b)
    case None => Err(NotFound)
  }

  /**
   `POST /api/beneficiaries`. Succeeds exactly when name and cpf are given
   and no row holds the cpf; then one row with the next AUTOINCREMENT key
   is appended and nothing else changes. A failure changes nothing.
   */
  function Create(s: Store, body: BeneficiaryBody): (r: Reply<int>)
    ensures body.name.None? ==> r.result == Err(NotNullFailed("beneficiaries.name"))
    ensures body.name.Some? && body.cpf.None? ==> r.result == Err(NotNullFailed("beneficiaries.cpf"))
    ensures body.name.Some? && body.cpf.Some? && CpfHeld(s.beneficiaries, body.cpf.value) ==>
              r.result == Err(UniqueFailed("beneficiaries.cpf"))
    ensures body.name.Some? && body.cpf.Some? && !CpfHeld(s.beneficiaries, body.cpf.value) ==> r.result.Ok?
    ensures r.result.Err? ==> r.store == s
    ensures r.result.Ok? ==>
              && body.name.Some? && body.cpf.Some?
              && r.result.value == s.beneficiarySeq + 1
              && r.store.beneficiaries == s.beneficiaries + [RowOf(r.result.value, body)]
              && r.store == s.(beneficiaries := r.store.beneficiaries, beneficiarySeq := r.result.value)
  {
    if body.name.None? then Reply(s, Err(NotNullFailed("beneficiaries.name")))
    else if body.cpf.None? then Reply(s, Err(NotNullFailed("beneficiaries.cpf")))
    else if CpfHeld(s.beneficiaries, body.cpf.value) then Reply(s, Err(UniqueFailed("beneficiaries.cpf")))
    else
      var id := s.beneficiarySeq + 1;
      Reply(s.(beneficiaries := s.beneficiaries + [RowOf(id, body)], beneficiarySeq := id), Ok(id))
  }

  /** Every row keyed `id` replaced by `row`; the others kept in place. */
  function ReplaceRow(bs: seq<Beneficiary>, id: int, row: Beneficiary): (r: seq<Beneficiary>)
    ensures |r| == |bs|
    ensures forall i :: 0 <= i < |bs| ==> r[i] == if bs[i].id == id then row else bs[i]
  {
    seq(|bs|, i requires 0 <= i < |bs| => if bs[i].id == id then row else bs[i])
  }

  /**
   `PUT /api/beneficiaries/:id`: every column is overwritten from the body,
   so an absent optional field becomes NULL. An unknown id changes nothing
   and reports 0 changes, whatever the body. For a known id the result is
   one change, unless name or cpf is missing or another row holds the cpf.
   */
  function Update(s: Store, id: int, body: BeneficiaryBody): (r: Reply<nat>)
    ensures !HasBeneficiary(s.beneficiaries, id) ==> r == Reply(s, Ok(0))
    ensures HasBeneficiary(s.beneficiaries, id) && body.name.None? ==>
              r.result == Err(NotNullFailed("beneficiaries.name"))
    ensures HasBeneficiary(s.beneficiaries, id) && body.name.Some? && body.cpf.None? ==>
              r.result == Err(NotNullFailed("beneficiaries.cpf"))
    ensures HasBeneficiary(s.beneficiaries, id) && body.name.Some? && body.cpf.Some?
            && CpfHeldByOther(s.beneficiaries, body.cpf.value, id) ==>
              r.result == Err(UniqueFailed("beneficiaries.cpf"))
    ensures HasBeneficiary(s.beneficiaries, id) && body.name.Some? && body.cpf.Some?
            && !CpfHeldByOther(s.beneficiaries, body.cpf.value, id) ==>
              r.result == Ok(1)
    ensures r.result.Err? ==> r.store == s
    ensures r.result == Ok(1) ==>
              && body.name.Some? && body.cpf.Some?
              && |r.store.beneficiaries| == |s.beneficiaries|
              && (forall i :: 0 <= i < |s.beneficiaries| && s.beneficiaries[i].id != id ==>
                    r.store.beneficiaries[i] == s.beneficiaries[i])
              && (forall i :: 0 <= i < |s.beneficiaries| && s.beneficiaries[i].id == id ==>
                    r.store.beneficiaries[i] == RowOf(id, body))
              && r.store == s.(beneficiaries := r.store.beneficiaries)
    ensures r.result.Ok? ==> r.result.value == 1 || r.store == s
  {
    if !HasBeneficiary(s.beneficiaries, id) then Reply(s, Ok(0))
    else if body.name.None? then Reply(s, Err(NotNullFailed("beneficiaries.name")))
    else if body.cpf.None? then Reply(s, Err(NotNullFailed("beneficiaries.cpf")))
    else if CpfHeldByOther(s.beneficiaries, body.cpf.value, id) then Reply(s, Err(UniqueFailed("beneficiaries.cpf")))
    else Reply(s.(beneficiaries := ReplaceRow(s.beneficiaries, id, RowOf(id, body))), Ok(1))
  }

  /**
   `DELETE /api/beneficiaries/:id`: removes the rows keyed `id` and reports
   how many went. It never fails and never touches enrolments or
   appointments: there is no cascade.
   */
  function Delete(s: Store, id: int): (r: Reply<nat>)
    ensures r.result.Ok?
    ensures forall b :: b in r.store.beneficiaries <==> b in s.beneficiaries && b.id != id
    ensures Seqs.IsSubseq(r.store.beneficiaries, s.beneficiaries)
    ensures r.result.value == |s.beneficiaries| - |r.store.beneficiaries|
    ensures !HasBeneficiary(s.beneficiaries, id) ==> r == Reply(s, Ok(0))
    ensures r.store == s.(beneficiaries := r.store.beneficiaries)
  {
    var kept := Seqs.Filter(s.beneficiaries, (b: Beneficiary) => b.id != id);
    if !HasBeneficiary(s.beneficiaries, id) then
      Seqs.FilterAll(s.beneficiaries, (b: Beneficiary) => b.id != id);
      Reply(s, Ok(0))
    else Reply(s.(beneficiaries := kept), Ok(|s.beneficiaries| - |kept|))
  }

  /** A successful create keeps every constraint: the new key is fresh and the cpf was free. */
  lemma CreatePreservesValid(s: Store, body: BeneficiaryBody)
    requires Valid(s)
    ensures Valid(Create(s, body).store)
  {
    var r := Create(s, body);
    if r.result.Ok? {
      var bs := r.store.beneficiaries;
      assert bs[|bs| - 1].cpf == body.cpf.value;
      forall i, j | 0 <= i < j < |bs| ensures bs[i].cpf != bs[j].cpf {
        if j == |bs| - 1 {
          assert !CpfHeld(s.beneficiaries, body.cpf.value);
          assert bs[i] == s.beneficiaries[i];
        }
      }
    }
  }

  /** What a successful create stored is what a fetch by the returned key reads back. */
  lemma CreateThenGet(s: Store, body: BeneficiaryBody)
    requires Valid(s)
    requires Create(s, body).result.Ok?
    ensures var r := Create(s, body);
            Get(r.store, r.result.value) == Ok(RowOf(r.result.value, body))
  {
    var r := Create(s, body);
    var id := r.result.value;
    var bs := r.store.beneficiaries;
    CreatePreservesValid(s, body);
    assert bs[|bs| - 1].id == id;
    var g := Get(r.store, id);
    var k :| 0 <= k < |bs| && bs[k] == g.value;
    assert k == |bs| - 1;
  }

  /** An update keeps every constraint: the key stays put and the cpf was free among the other rows. */
  lemma UpdatePreservesValid(s: Store, id: int, body: BeneficiaryBody)
    requires Valid(s)
    ensures Valid(Update(s, id, body).store)
  {
    var r := Update(s, id, body);
    if r.result == Ok(1) {
      var bs := s.beneficiaries;
      var bs' := r.store.beneficiaries;
      forall i, j | 0 <= i < j < |bs'| ensures bs'[i].cpf != bs'[j].cpf && bs'[i].id < bs'[j].id {
        assert bs'[i].id == bs[i].id && bs'[j].id == bs[j].id;
        if bs[i].id == id {
          assert bs[j].id != id;
          assert !CpfHeldByOther(bs, body.cpf.value, id);
        } else if bs[j].id == id {
          assert !CpfHeldByOther(bs, body.cpf.value, id);
        }
      }
    }
  }

  /** A delete keeps every constraint, because the remaining rows keep their order. */
  lemma DeletePreservesValid(s: Store, id: int)
    requires Valid(s)
    ensures Valid(Delete(s, id).store)
  {
    var r := Delete(s, id);
    if HasBeneficiary(s.beneficiaries, id) {
      var keep := (b: Beneficiary) => b.id != id;
      Seqs.FilterPairwise(s.beneficiaries, keep, (a: Beneficiary, b: Beneficiary) => a.id < b.id);
      Seqs.FilterPairwise(s.beneficiaries, keep, (a: Beneficiary, b: Beneficiary) => a.cpf != b.cpf);
      var bs' := r.store.beneficiaries;
      forall i | 0 <= i < |bs'| ensures 0 < bs'[i].id <= s.beneficiarySeq {
        assert bs'[i] in s.beneficiaries;
      }
    }
  }

  /** On a valid store a delete reports one change exactly when the key existed, and the row is gone. */
  lemma DeleteReportsOneChange(s: Store, id: int)
    requires Valid(s)
    ensures Delete(s, id).result.value == if HasBeneficiary(s.beneficiaries, id) then 1 else 0
    ensures Get(Delete(s, id).store, id) == Err(NotFound)
  {
    var bs := s.beneficiaries;
    if HasBeneficiary(bs, id) {
      var k :| 0 <= k < |bs| && bs[k].id == id;
      Seqs.FilterDropsOne(bs, (b: Beneficiary) => b.id != id, k);
    }
  }
}
