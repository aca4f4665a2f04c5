/**
 * The two versions of the Rut class side by side: on the bodies the current
 * constructor accepts without dots, the older one builds the same Rut and
 * both agree on validity and on every format; outside them the older one
 * builds Ruts the current one refuses.
 */
module Versions {
  import opened Results
  import opened Kotlin
  import opened Grammar
  import opened Checksum
  import MrcotoRut
  import EspinRut

  function EspinFormat(style: MrcotoRut.RutFormat): EspinRut.RutFormat
  {
    match style
    case Full => EspinRut.Full
    case OnlyDash => EspinRut.OnlyDash
    case Escaped => EspinRut.Escaped
  }

  /** Plain digits and a check digit the current constructor accepts build the same Rut in both versions. */
  lemma SameOnPlainBodies(body: string, dv: string, style: MrcotoRut.RutFormat)
    requires IsBodyDigits(body) && IsDvText(dv)
    ensures MrcotoRut.New(body, dv).Success?
    ensures var m := MrcotoRut.New(body, dv).value;
      EspinRut.New(body, dv) == Some(EspinRut.Rut(m.number, m.dv)) &&
      (MrcotoRut.IsValid(m) <==> EspinRut.IsValid(EspinRut.Rut(m.number, m.dv))) &&
      EspinRut.Format(EspinRut.Rut(m.number, m.dv), EspinFormat(style)) == Success(MrcotoRut.Format(m, style))
  {
    BodyDigitsAreBodyText(body);
    ReplaceAllAbsent(body, '.', "");
    MrcotoRut.BodyDigitsInRange(body);
    ToIntOfDigits(body);
    var lower := ToLower(dv);
    assert lower[0] != '%';
    FormatTailPlain(lower);
  }

  /** The older constructor accepts bodies the current one refuses, and some of them are valid. */
  lemma EspinAcceptsMore()
    ensures MrcotoRut.New("0", "0") == Failure(MrcotoRut.InvalidFormat)
    ensures EspinRut.New("0", "0").Some? && EspinRut.IsValid(EspinRut.New("0", "0").value)
  {
    EspinRut.ZeroAndNegativeAreValid();
  }

  /** Both versions compute the same check digit for every Int. */
  method SameCheckDigit(number: Int32) returns (current: string, older: string)
    ensures current == older
  {
    current := MrcotoRut.CalcDv(number);
    older := EspinRut.CalcDv(number);
  }
}
