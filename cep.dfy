/**
 * The CEP (Brazilian postal code) field helpers of the frontend (cep.js): the
 * "XXXXX-XXX" mask applied while typing, the check against the CEP lookup
 * endpoint, and the state shown when a form opens with a saved CEP.
 */
module Cep {
  import opened Options
  import opened Relational
  import opened Text

  const CepDigits: nat := 8
  const PrefixDigits: nat := 5

  /** value.replace(/\D/g, ''): the ASCII digits, in order. */
  function Digits(s: string): (r: string)
    ensures AllDigits(r) && |r| <= |s|
  {
    Filter(s, IsDigit)
  }

  /** formatarCep on the text of the input. */
  function Format(s: string): string {
    var d := Digits(s);
    var c := if |d| > CepDigits then d[..CepDigits] else d;
    if |c| > PrefixDigits then c[..PrefixDigits] + "-" + c[PrefixDigits..] else c
  }

  lemma {:induction false} DigitsOfDigits(s: string)
    requires AllDigits(s)
    ensures Digits(s) == s
  {
    FilterKeepsAll(s, IsDigit);
  }

  lemma {:induction false} DigitsDistributes(a: string, b: string)
    ensures Digits(a + b) == Digits(a) + Digits(b)
    decreases |b|
  {
    if b == [] {
      assert a + b == a;
    } else {
      var ab := a + b;
      assert ab[..|ab| - 1] == a + b[..|b| - 1];
      DigitsDistributes(a, b[..|b| - 1]);
    }
  }

  /** At most 8 digits and at most one hyphen, which sits at index 5 and only when more than five digits were typed. */
  lemma FormatShape(s: string)
    ensures |Format(s)| <= 9
    ensures |Format(s)| > PrefixDigits <==> |Digits(s)| > PrefixDigits
    ensures forall i :: 0 <= i < |Format(s)| ==> (Format(s)[i] == '-' <==> i == PrefixDigits)
    ensures forall i :: 0 <= i < |Format(s)| && i != PrefixDigits ==> IsDigit(Format(s)[i])
  {
  }

  /** Removing the hyphen of the mask gives the digits back. */
  lemma MaskDigits(c: string)
    requires AllDigits(c) && |c| > PrefixDigits
    ensures Digits(c[..PrefixDigits] + "-" + c[PrefixDigits..]) == c
  {
    var head, tail := c[..PrefixDigits], c[PrefixDigits..];
    DigitsDistributes(head + "-", tail);
    DigitsDistributes(head, "-");
    DigitsOfDigits(head);
    DigitsOfDigits(tail);
    assert "-"[..0] == [];
    assert Digits("-") == Digits([]) + [];
    assert head + tail == c;
  }

  /** The digits survive formatting: the first eight of them, in order. */
  lemma FormatKeepsDigits(s: string)
    ensures Digits(Format(s)) == if |Digits(s)| > CepDigits then Digits(s)[..CepDigits] else Digits(s)
  {
    var d := Digits(s);
    var c := if |d| > CepDigits then d[..CepDigits] else d;
    assert AllDigits(c);
    if |c| > PrefixDigits {
      MaskDigits(c);
    } else {
      DigitsOfDigits(c);
    }
  }

  /** Formatting an already formatted value leaves it unchanged. */
  lemma FormatIdempotent(s: string)
    ensures Format(Format(s)) == Format(s)
  {
    FormatKeepsDigits(s);
  }

  /** A full CEP formats to nine characters and back to its eight digits. */
  lemma FullCepRoundTrip(d: string)
    requires AllDigits(d) && |d| == CepDigits
    ensures Format(d) == d[..PrefixDigits] + "-" + d[PrefixDigits..]
    ensures |Format(d)| == 9 && Digits(Format(d)) == d
  {
    DigitsOfDigits(d);
    FormatKeepsDigits(d);
  }

  /** How the lookup endpoint answered. */
  datatype LookupAnswer = Found | Status(code: int)

  /** The class and message of the field. */
  datatype FieldState = Cleared | Valid | Invalid(message: string)

  class CepField {
    var value: string
    var state: FieldState

    constructor (value: string)
      ensures this.value == value && state == Cleared
    {
      this.value := value;
      state := Cleared;
    }

    /** formatarCep: the input's text is replaced by its mask. */
    method FormatInput()
      modifies this
      ensures value == Format(old(value)) && state == old(state)
    {
      var d := Filter(value, IsDigit);
      if |d| > CepDigits {
        d := d[..CepDigits];
      }
      if |d| > PrefixDigits {
        d := d[..PrefixDigits] + "-" + d[PrefixDigits..];
      }
      value := d;
    }

    /**
     * validarCep: the state is cleared, and only eight digits are sent to the
     * lookup; success marks the field valid, a 404 "CEP inválido" and any other
     * failure "Erro ao consultar CEP".
     */
    method Validate(answer: LookupAnswer) returns (consulted: bool)
      modifies this
      ensures consulted <==> |Digits(value)| == CepDigits
      ensures !consulted ==> state == Cleared
      ensures consulted && answer == Found ==> state == Valid
      ensures consulted && answer == Status(404) ==> state == Invalid("CEP inválido")
      ensures consulted && answer.Status? && answer.code != 404 ==> state == Invalid("Erro ao consultar CEP")
      ensures value == old(value)
    {
      var digits := Filter(value, IsDigit);
      state := Cleared;
      consulted := |digits| == CepDigits;
      if consulted {
        if answer == Found {
          state := Valid;
        } else {
          state := Invalid(if answer.code == 404 then "CEP inválido" else "Erro ao consultar CEP");
        }
      }
    }

    /** preencherValidacaoCep: a saved value of nine characters is shown as valid; otherwise the state is cleared. */
    method Prefill(saved: Option<string>)
      modifies this
      ensures state == (if saved.Some? && |saved.value| == 9 then Valid else Cleared)
      ensures value == old(value)
    {
      state := Cleared;
      if saved.Some? && saved.value != "" && |saved.value| == 9 {
        state := Valid;
      }
    }
  }

  /** A formatted value reaches nine characters exactly when eight digits were typed, so a full CEP saved in mask form is prefilled as valid. */
  lemma FormattedFullCepIsPrefilledValid(s: string)
    ensures |Format(s)| == 9 <==> |Digits(s)| >= CepDigits
  {
  }
}
