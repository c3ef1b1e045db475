/**
 The login form: the CPF field keeps only digits, and a submit clears the
 error, waits for the sign-in and then shows one fixed message on any
 failure. The sign-in itself happens elsewhere; its outcome is a parameter.
 */
module LoginForm {
  import Seqs
  import Numerals

  /** `value.replace(/\D/g, '')`: the digits of `s`, in order. */
  function DigitsOnly(s: string): (r: string)
    ensures Numerals.AllDigits(r)
    ensures |r| <= |s|
    ensures forall c :: c in r <==> c in s && Numerals.IsDigit(c)
    ensures forall c :: multiset(r)[c] == if Numerals.IsDigit(c) then multiset(s)[c] else 0
    ensures Seqs.IsSubseq(r, s)
    ensures Numerals.AllDigits(s) ==> r == s
  {
    var r := Seqs.Filter(s, Numerals.IsDigit);
    assert Numerals.AllDigits(s) ==> r == s by {
      if Numerals.AllDigits(s) {
        Seqs.FilterAll(s, Numerals.IsDigit);
      }
    }
    r
  }

  /** Filtering an already filtered value changes nothing. */
  lemma DigitsOnlyIdempotent(s: string)
    ensures DigitsOnly(DigitsOnly(s)) == DigitsOnly(s)
  {
  }

  /**
   The field's `onChange`: the browser's `maxLength={11}` keeps at most 11
   characters of what was typed or pasted, then only their digits are kept.
   */
  function CpfField(typed: string): (r: string)
    ensures Numerals.AllDigits(r)
    ensures |r| <= 11
    ensures Seqs.IsSubseq(r, typed)
    ensures |typed| <= 11 ==> r == DigitsOnly(typed)
    ensures |typed| > 11 ==> r == DigitsOnly(typed[..11])
  {
    var kept := if |typed| <= 11 then typed else typed[..11];
    Seqs.PrefixSubseq(kept, typed);
    var r := DigitsOnly(kept);
    Seqs.SubseqTransitive(r, kept, typed);
    r
  }

  const InvalidCredentials := "Credenciais inválidas. Verifique o CPF e a senha."

  datatype FormState = FormState(cpf: string, senha: string, error: string, loading: bool)

  /** How the sign-in call ended; a rejection carries whatever the caller threw. */
  datatype SignIn = SignedIn | Rejected(cause: string)

  /** `handleSubmit` up to the awaited call: the error cleared, loading shown, the fields sent as they are. */
  function BeginSubmit(st: FormState): (r: FormState)
    ensures r.error == "" && r.loading
    ensures r.cpf == st.cpf && r.senha == st.senha
  {
    st.(error := "", loading := true)
  }

  /** The rest of `handleSubmit`: loading always ends; a rejection shows the fixed message. */
  function FinishSubmit(st: FormState, outcome: SignIn): (r: FormState)
    ensures !r.loading
    ensures r.cpf == st.cpf && r.senha == st.senha
    ensures outcome.SignedIn? ==> r.error == st.error
    ensures outcome.Rejected? ==> r.error == InvalidCredentials
  {
    if outcome.Rejected? then st.(error := InvalidCredentials, loading := false)
    else st.(loading := false)
  }

  /** A whole submit: what the user reads after it does not depend on why the sign-in failed. */
  lemma FailureMessageIgnoresCause(st: FormState, a: string, b: string)
    ensures FinishSubmit(BeginSubmit(st), Rejected(a)) == FinishSubmit(BeginSubmit(st), Rejected(b))
    ensures FinishSubmit(BeginSubmit(st), Rejected(a)).error == InvalidCredentials
    ensures FinishSubmit(BeginSubmit(st), SignedIn).error == ""
  {
  }
}
