/**
 * The CPF (Cadastro de Pessoas Físicas) check-digit validator of the
 * CadastroPessoas service. `ValidarCpf` follows the service's code step by
 * step, JavaScript semantics included (`parseInt` of a non-digit is NaN, and
 * NaN poisons the running sum and fails every comparison). `IsValidCpf` is
 * the standard statement of the scheme, written independently; the two are
 * proved to agree on every string.
 */
module Cpf {
  import opened JsNumber

  // ---------------------------------------------------------------------
  // The validator as the service writes it
  // ---------------------------------------------------------------------

  /** `\d` in a JavaScript regular expression without the `u` flag. */
  predicate IsAsciiDigit(c: char)
  {
    '0' <= c <= '9'
  }

  /** `parseInt` of a one-character string: the digit's value, or NaN. */
  function ParseIntChar(c: char): (r: JsNum)
    ensures r.Num? <==> IsAsciiDigit(c)
    ensures r.Num? ==> 0 <= r.n <= 9
  {
    if IsAsciiDigit(c) then Num(c as int - '0' as int) else NaN
  }

  /** The regular expression `^(\d)\1{10}$`: one ASCII digit, eleven times. */
  predicate RepeatedDigit(s: string): (m: bool)
    ensures m <==> |s| == 11 && DigitsUpTo(s, 11) && forall i :: 0 <= i < 11 ==> s[i] == s[0]
  {
    |s| == 11 && IsAsciiDigit(s[0]) && forall i :: 0 < i < |s| ==> s[i] == s[0]
  }

  /**
   * The running sum `soma` after the first `count` rounds of a checksum loop
   * whose round `i` (counted from 1) adds `parseInt(cpf[i-1]) * (top - i)`.
   */
  function Soma(cpf: string, count: nat, top: int): (r: JsNum)
    requires count <= |cpf|
    ensures r.Num? <==> DigitsUpTo(cpf, count)
  {
    if count == 0 then Num(0)
    else Add(Soma(cpf, count - 1, top), Mul(ParseIntChar(cpf[count - 1]), top - count))
  }

  /** `resto = (soma * 10) % 11`, then `if (resto === 10 || resto === 11) resto = 0`. */
  function Resto(soma: JsNum): (r: JsNum)
    ensures r.Num? <==> soma.Num?
    ensures r.Num? ==> -10 <= r.n <= 9
  {
    var resto := Rem(Mul(soma, 10), 11);
    if StrictEq(resto, Num(10)) || StrictEq(resto, Num(11)) then Num(0) else resto
  }

  /** One check-digit test: the clamped remainder of the first `count` digits equals digit `count`. */
  predicate CheckDigitPasses(cpf: string, count: nat, top: int): (ok: bool)
    requires count < |cpf|
    ensures ok ==> DigitsUpTo(cpf, count + 1)
  {
    StrictEq(Resto(Soma(cpf, count, top)), ParseIntChar(cpf[count]))
  }

  /** `validarCPF`, for a string argument. */
  function ValidarCpf(cpf: string): (ok: bool)
    ensures |cpf| != 11 ==> !ok
    ensures RepeatedDigit(cpf) ==> !ok
    ensures ok ==> DigitsUpTo(cpf, 11)
  {
    if |cpf| != 11 || RepeatedDigit(cpf) then false
    else
      SomaMatchesWeightedSum(cpf, 9, 11);
      SomaMatchesWeightedSum(cpf, 10, 12);
      CheckDigitPasses(cpf, 9, 11) && CheckDigitPasses(cpf, 10, 12)
  }

  // ---------------------------------------------------------------------
  // The scheme stated independently
  // ---------------------------------------------------------------------

  predicate DigitsUpTo(s: string, n: nat)
    requires n <= |s|
  {
    forall j :: 0 <= j < n ==> IsAsciiDigit(s[j])
  }

  function DigitValue(c: char): nat
    requires IsAsciiDigit(c)
  {
    c as int - '0' as int
  }

  /** Σ_{j < n} digit_j · (top − j): the first digit carries weight `top`, each later one one less. */
  function WeightedSum(s: string, n: nat, top: int): (sum: int)
    requires n <= |s| && DigitsUpTo(s, n)
    ensures top + 1 >= n ==> sum >= 0
  {
    if n == 0 then 0
    else WeightedSum(s, n - 1, top) + DigitValue(s[n - 1]) * (top - (n - 1))
  }

  /** The usual textbook rule: remainder below 2 gives 0, otherwise 11 minus the remainder. */
  function StandardCheckDigit(sum: int): (d: int)
    ensures 0 <= d <= 9
  {
    var r := sum % 11;
    if r < 2 then 0 else 11 - r
  }

  /**
   * A valid CPF: eleven ASCII digits, not all equal, whose tenth digit is the
   * check digit of the first nine (weights 10..2) and whose eleventh is the
   * check digit of the first ten (weights 11..2).
   */
  predicate IsValidCpf(s: string)
  {
    && |s| == 11
    && DigitsUpTo(s, 11)
    && !(forall i :: 0 <= i < 11 ==> s[i] == s[0])
    && DigitValue(s[9]) == StandardCheckDigit(WeightedSum(s, 9, 10))
    && DigitValue(s[10]) == StandardCheckDigit(WeightedSum(s, 10, 11))
  }

  // ---------------------------------------------------------------------
  // Proofs
  // ---------------------------------------------------------------------

  /**
   * Over the first `count` characters the as-written sum is NaN exactly when
   * a non-digit was read, and is otherwise the weighted digit sum.
   */
  lemma {:induction false} SomaMatchesWeightedSum(cpf: string, count: nat, top: int)
    requires count <= |cpf|
    ensures Soma(cpf, count, top).Num? <==> DigitsUpTo(cpf, count)
    ensures DigitsUpTo(cpf, count) ==> Soma(cpf, count, top) == Num(WeightedSum(cpf, count, top - 1))
  {
    if count > 0 {
      SomaMatchesWeightedSum(cpf, count - 1, top);
    }
  }

  lemma ModElevenUnique(a: int, q: int, r: int)
    requires a == 11 * q + r && 0 <= r < 11
    ensures a % 11 == r
  {
  }

  /** For a non-negative sum, `(sum * 10) % 11` clamped 10→0 is the textbook check digit. */
  lemma ClampMatchesStandard(sum: int)
    requires sum >= 0
    ensures Resto(Num(sum)) == Num(StandardCheckDigit(sum))
  {
    var q, r := sum / 11, sum % 11;
    if r == 0 {
      ModElevenUnique(sum * 10, 10 * q, 0);
    } else {
      ModElevenUnique(sum * 10, 10 * q + r - 1, 11 - r);
    }
  }

  /** The service's validator accepts exactly the valid CPFs. */
  lemma ValidarCpfIsStandard(cpf: string)
    ensures ValidarCpf(cpf) <==> IsValidCpf(cpf)
  {
    if |cpf| == 11 {
      SomaMatchesWeightedSum(cpf, 9, 11);
      SomaMatchesWeightedSum(cpf, 10, 12);
      if DigitsUpTo(cpf, 9) {
        ClampMatchesStandard(WeightedSum(cpf, 9, 10));
      }
      if DigitsUpTo(cpf, 10) {
        ClampMatchesStandard(WeightedSum(cpf, 10, 11));
      }
      if DigitsUpTo(cpf, 11) && (forall i :: 0 <= i < 11 ==> cpf[i] == cpf[0]) {
        assert RepeatedDigit(cpf);
      }
    }
  }

  /**
   * The `resto === 11` test never fires: the remainder of an integer by 11
   * lies strictly between -11 and 11. For the two checks the validator runs,
   * the clamped remainder is NaN or a digit value 0..9.
   */
  lemma {:induction false} CheckDigitInRange(cpf: string, soma: JsNum)
    requires |cpf| == 11
    ensures !StrictEq(Rem(Mul(soma, 10), 11), Num(11))
    ensures var r := Resto(Soma(cpf, 9, 11)); r.NaN? || 0 <= r.n <= 9
    ensures var r := Resto(Soma(cpf, 10, 12)); r.NaN? || 0 <= r.n <= 9
  {
    SomaMatchesWeightedSum(cpf, 9, 11);
    SomaMatchesWeightedSum(cpf, 10, 12);
    if DigitsUpTo(cpf, 9) {
      ClampMatchesStandard(WeightedSum(cpf, 9, 10));
    }
    if DigitsUpTo(cpf, 10) {
      ClampMatchesStandard(WeightedSum(cpf, 10, 11));
    }
  }

  function WeightTotal(n: nat, top: int): int
  {
    if n == 0 then 0 else WeightTotal(n - 1, top) + (top - (n - 1))
  }

  lemma {:induction false} WeightedSumOfRepeated(s: string, n: nat, top: int, d: char)
    requires n <= |s| && IsAsciiDigit(d)
    requires forall j :: 0 <= j < |s| ==> s[j] == d
    ensures DigitsUpTo(s, n)
    ensures WeightedSum(s, n, top) == DigitValue(d) * WeightTotal(n, top)
  {
    if n > 0 {
      WeightedSumOfRepeated(s, n - 1, top, d);
      var v := DigitValue(d);
      calc {
        WeightedSum(s, n, top);
        v * WeightTotal(n - 1, top) + v * (top - (n - 1));
        v * (WeightTotal(n - 1, top) + (top - (n - 1)));
      }
    }
  }

  /** The check digit of 54·v and of 65·v is v itself, for every digit value v. */
  lemma RepeatedCheckDigits(v: int)
    requires 0 <= v <= 9
    ensures StandardCheckDigit(54 * v) == v
    ensures StandardCheckDigit(65 * v) == v
  {
    if v > 0 {
      ModElevenUnique(54 * v, 5 * v - 1, 11 - v);
      ModElevenUnique(65 * v, 6 * v - 1, 11 - v);
    }
  }

  lemma RepeatedPassesFirst(s: string, d: char)
    requires |s| == 11 && IsAsciiDigit(d)
    requires forall j :: 0 <= j < |s| ==> s[j] == d
    ensures CheckDigitPasses(s, 9, 11)
  {
    var v := DigitValue(d);
    SomaMatchesWeightedSum(s, 9, 11);
    WeightedSumOfRepeated(s, 9, 10, d);
    assert WeightTotal(9, 10) == 54;
    ClampMatchesStandard(54 * v);
    RepeatedCheckDigits(v);
    assert ParseIntChar(s[9]) == Num(v);
  }

  lemma RepeatedPassesSecond(s: string, d: char)
    requires |s| == 11 && IsAsciiDigit(d)
    requires forall j :: 0 <= j < |s| ==> s[j] == d
    ensures CheckDigitPasses(s, 10, 12)
  {
    var v := DigitValue(d);
    SomaMatchesWeightedSum(s, 10, 12);
    WeightedSumOfRepeated(s, 10, 11, d);
    assert WeightTotal(10, 11) == 65;
    ClampMatchesStandard(65 * v);
    RepeatedCheckDigits(v);
    assert ParseIntChar(s[10]) == Num(v);
  }

  /**
   * Eleven copies of one digit pass both check-digit tests, so it is the
   * repeated-digit test alone that rejects them.
   */
  lemma RepeatedDigitsPassChecksums(d: char)
    requires IsAsciiDigit(d)
    ensures var s := seq(11, _ => d); CheckDigitPasses(s, 9, 11) && CheckDigitPasses(s, 10, 12)
  {
    var s := seq(11, _ => d);
    RepeatedPassesFirst(s, d);
    RepeatedPassesSecond(s, d);
  }

  /** Eleven digits, not all equal, with both check digits right: accepted. */
  lemma AcceptsWellFormed(s: string)
    requires |s| == 11 && DigitsUpTo(s, 11) && !(forall i :: 0 <= i < 11 ==> s[i] == s[0])
    requires DigitValue(s[9]) == StandardCheckDigit(WeightedSum(s, 9, 10))
    requires DigitValue(s[10]) == StandardCheckDigit(WeightedSum(s, 10, 11))
    ensures ValidarCpf(s)
  {
    ValidarCpfIsStandard(s);
  }

  /** Eleven digits with a wrong tenth digit: rejected. */
  lemma RejectsWrongFirstCheckDigit(s: string)
    requires |s| == 11 && DigitsUpTo(s, 11)
    requires DigitValue(s[9]) != StandardCheckDigit(WeightedSum(s, 9, 10))
    ensures !ValidarCpf(s)
  {
    ValidarCpfIsStandard(s);
  }

  /** Eleven digits with a wrong eleventh digit: rejected. */
  lemma RejectsWrongSecondCheckDigit(s: string)
    requires |s| == 11 && DigitsUpTo(s, 11)
    requires DigitValue(s[10]) != StandardCheckDigit(WeightedSum(s, 10, 11))
    ensures !ValidarCpf(s)
  {
    ValidarCpfIsStandard(s);
  }

  /** A known valid CPF is accepted. */
  lemma ReferenceCpfAccepted()
    ensures ValidarCpf("11144477735")
  {
    var s := "11144477735";
    assert DigitsUpTo(s, 11);
    assert WeightedSum(s, 1, 10) == 10;
    assert WeightedSum(s, 2, 10) == 19;
    assert WeightedSum(s, 3, 10) == 27;
    assert WeightedSum(s, 4, 10) == 55;
    assert WeightedSum(s, 5, 10) == 79;
    assert WeightedSum(s, 6, 10) == 99;
    assert WeightedSum(s, 7, 10) == 127;
    assert WeightedSum(s, 8, 10) == 148;
    assert WeightedSum(s, 9, 10) == 162;
    assert StandardCheckDigit(162) == 3;
    assert WeightedSum(s, 1, 11) == 11;
    assert WeightedSum(s, 2, 11) == 21;
    assert WeightedSum(s, 3, 11) == 30;
    assert WeightedSum(s, 4, 11) == 62;
    assert WeightedSum(s, 5, 11) == 90;
    assert WeightedSum(s, 6, 11) == 114;
    assert WeightedSum(s, 7, 11) == 149;
    assert WeightedSum(s, 8, 11) == 177;
    assert WeightedSum(s, 9, 11) == 198;
    assert WeightedSum(s, 10, 11) == 204;
    assert StandardCheckDigit(204) == 5;
    assert s[3] != s[0];
    AcceptsWellFormed(s);
  }

  /** Changing the eleventh digit of that CPF makes it invalid. */
  lemma SecondCheckDigitFlipRejected()
    ensures !ValidarCpf("11144477734")
  {
    var s := "11144477734";
    assert DigitsUpTo(s, 11);
    assert WeightedSum(s, 1, 11) == 11;
    assert WeightedSum(s, 2, 11) == 21;
    assert WeightedSum(s, 3, 11) == 30;
    assert WeightedSum(s, 4, 11) == 62;
    assert WeightedSum(s, 5, 11) == 90;
    assert WeightedSum(s, 6, 11) == 114;
    assert WeightedSum(s, 7, 11) == 149;
    assert WeightedSum(s, 8, 11) == 177;
    assert WeightedSum(s, 9, 11) == 198;
    assert WeightedSum(s, 10, 11) == 204;
    assert StandardCheckDigit(204) == 5;
    RejectsWrongSecondCheckDigit(s);
  }

  /** Changing the tenth digit of that CPF makes it invalid. */
  lemma FirstCheckDigitFlipRejected()
    ensures !ValidarCpf("11144477725")
  {
    var s := "11144477725";
    assert DigitsUpTo(s, 11);
    assert WeightedSum(s, 1, 10) == 10;
    assert WeightedSum(s, 2, 10) == 19;
    assert WeightedSum(s, 3, 10) == 27;
    assert WeightedSum(s, 4, 10) == 55;
    assert WeightedSum(s, 5, 10) == 79;
    assert WeightedSum(s, 6, 10) == 99;
    assert WeightedSum(s, 7, 10) == 127;
    assert WeightedSum(s, 8, 10) == 148;
    assert WeightedSum(s, 9, 10) == 162;
    assert StandardCheckDigit(162) == 3;
    RejectsWrongFirstCheckDigit(s);
  }

  /** The sample `12345678900` is not a valid CPF. */
  lemma SampleCpfRejected()
    ensures !ValidarCpf("12345678900")
  {
    var s := "12345678900";
    assert DigitsUpTo(s, 11);
    assert WeightedSum(s, 1, 11) == 11;
    assert WeightedSum(s, 2, 11) == 31;
    assert WeightedSum(s, 3, 11) == 58;
    assert WeightedSum(s, 4, 11) == 90;
    assert WeightedSum(s, 5, 11) == 125;
    assert WeightedSum(s, 6, 11) == 161;
    assert WeightedSum(s, 7, 11) == 196;
    assert WeightedSum(s, 8, 11) == 228;
    assert WeightedSum(s, 9, 11) == 255;
    assert WeightedSum(s, 10, 11) == 255;
    assert StandardCheckDigit(255) == 9;
    RejectsWrongSecondCheckDigit(s);
  }
}
