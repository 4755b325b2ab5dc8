/** The two static predicates of the `Validator` class in assets/js/main.js. */
module Validator {
  import opened Text

  /** A JavaScript number as `parseFloat` produces it: NaN, a signed infinity or a finite
      value (negative zero and rounding are not distinguished). */
  datatype Number = NaN | Infinity(negative: bool) | Finite(value: real)

  /** An argument of unknown JavaScript type: only strings are told apart. */
  datatype JsValue = Str(s: string) | NotAString

  predicate IsWhole(x: real) {
    x == x.Floor as real
  }

  /** Truncation toward zero, the integer part JavaScript's `%` keeps. */
  function Truncate(x: real): (k: int)
    ensures x >= 0.0 ==> k == x.Floor
    ensures x < 0.0 ==> k <= 0 && x - k as real <= 0.0
    ensures -1.0 < x - k as real < 1.0
  {
    if x >= 0.0 then x.Floor else -((-x).Floor)
  }

  /** `n % 1`: the remainder keeps the dividend's sign; infinite and NaN dividends give NaN. */
  function ModOne(n: Number): (m: Number)
    ensures m.NaN? <==> !n.Finite?
    ensures n.Finite? ==> m == Finite(n.value - Truncate(n.value) as real)
  {
    match n
    case NaN => NaN
    case Infinity(_) => NaN
    case Finite(x) => Finite(x - Truncate(x) as real)
  }

  /** `n !== 0` on numbers: NaN and the infinities are never zero. */
  predicate IsNonZero(n: Number) {
    !n.Finite? || n.value != 0.0
  }

  /** `n < 0` on numbers: false for NaN. */
  predicate IsNegative(n: Number) {
    match n
    case NaN => false
    case Infinity(neg) => neg
    case Finite(x) => x < 0.0
  }

  /** `Validator.checkInt`: three early rejections (NaN, a fractional part, a negative value).
      It accepts exactly the finite whole numbers that are not negative. */
  function CheckInt(n: Number): (ok: bool)
    ensures ok <==> n.Finite? && IsWhole(n.value) && n.value >= 0.0
  {
    if n.NaN? then false
    else if IsNonZero(ModOne(n)) then false
    else if IsNegative(n) then false
    else true
  }

  /** Every natural number passes `checkInt`; zero in particular. */
  lemma CheckIntAcceptsNaturals(k: nat)
    ensures CheckInt(Finite(k as real))
  {
    assert (k as real).Floor == k;
  }

  /** `Validator.checkString`: rejects non-strings, then strings whose trimmed form is empty.
      It accepts exactly the strings holding a character that is not whitespace. */
  function CheckString(v: JsValue): (ok: bool)
    ensures ok <==> v.Str? && exists i :: 0 <= i < |v.s| && !IsSpace(v.s[i])
  {
    if !v.Str? then false
    else
      TrimEmptyIff(v.s);
      if Trim(v.s) == "" then false
      else true
  }
}
