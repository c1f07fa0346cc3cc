/**
 * `validarDados`: the guard run before every create and update of a person.
 * Each violation is reported with `req.error(400, …)`, which records the
 * error and carries on, so both violations can be reported together.
 */
module FieldValidation {
  import opened Wrappers
  import opened Messages
  import Cpf

  /** One `req.error(status, message)` call. */
  datatype FieldError = FieldError(status: int, key: MessageKey)

  /** The minimum age the service accepts. */
  const MinimumAge := 16

  /** JavaScript truthiness of a number field: absent and `0` are falsy. */
  predicate TruthyNumber(x: Option<int>)
  {
    x.Some? && x.value != 0
  }

  /** JavaScript truthiness of a string field: absent and `""` are falsy. */
  predicate TruthyString(s: Option<string>)
  {
    s.Some? && s.value != ""
  }

  /** The call `this.validarCPF(cpf)`: the service's validator, which accepts exactly the valid CPFs. */
  function CallsValidarCpf(cpf: string): (ok: bool)
    ensures ok <==> Cpf.IsValidCpf(cpf)
  {
    Cpf.ValidarCpfIsStandard(cpf);
    Cpf.ValidarCpf(cpf)
  }

  /**
   * The errors `validarDados` raises for the request fields `cpf` and
   * `idade`, in the order it raises them.
   */
  function ValidarDados(cpf: Option<string>, idade: Option<int>): (errors: seq<FieldError>)
    ensures |errors| <= 2
    ensures forall e :: e in errors ==> e.status == 400
    ensures forall e :: e in errors ==> e.key == ErrorWrongYear || e.key == ErrorWrongCpf
    ensures FieldError(400, ErrorWrongYear) in errors
            <==> idade.Some? && idade.value != 0 && idade.value < MinimumAge
    ensures FieldError(400, ErrorWrongCpf) in errors
            <==> cpf.Some? && cpf.value != "" && !Cpf.IsValidCpf(cpf.value)
    ensures |errors| == 2 ==> errors == [FieldError(400, ErrorWrongYear), FieldError(400, ErrorWrongCpf)]
  {
    var ageErrors := if TruthyNumber(idade) && idade.value < MinimumAge then [FieldError(400, ErrorWrongYear)] else [];
    var cpfErrors := if TruthyString(cpf) && !CallsValidarCpf(cpf.value) then [FieldError(400, ErrorWrongCpf)] else [];
    ageErrors + cpfErrors
  }

  /**
   * Age 15 is rejected and 16 accepted; an age of 0 is falsy and skips the
   * check, while a negative age is truthy and is rejected.
   */
  lemma AgeBoundary()
    ensures ValidarDados(None, Some(15)) == [FieldError(400, ErrorWrongYear)]
    ensures ValidarDados(None, Some(16)) == []
    ensures ValidarDados(None, Some(0)) == []
    ensures ValidarDados(None, Some(-1)) == [FieldError(400, ErrorWrongYear)]
  {
  }

  /**
   * A structurally invalid CPF is rejected and a valid one accepted; an
   * empty CPF is falsy and skips the check.
   */
  lemma CpfExamples()
    ensures ValidarDados(Some("12345678900"), None) == [FieldError(400, ErrorWrongCpf)]
    ensures ValidarDados(Some("11144477735"), Some(16)) == []
    ensures ValidarDados(Some(""), None) == []
  {
    Cpf.SampleCpfRejected();
    Cpf.ReferenceCpfAccepted();
  }
}
