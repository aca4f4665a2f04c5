/**
 * The older Rut class (package com.espin.chilean_rut). It shares the
 * modulo-11 check digit and the three formats with the current class, but
 * its constructor checks nothing: the body is whatever `toInt()` makes of
 * the text, so it may be zero, negative or dotted text that fails to read,
 * and the check digit is any text, lower-cased.
 */
module EspinRut {
  import opened Results
  import opened Kotlin
  import opened Checksum

  /** FORMAT. */
  datatype RutFormat = Full | OnlyDash | Escaped

  datatype Rut = Rut(number: Int32, dv: string)

  /**
   * The constructor `Rut(number, dv)`: `number.toInt()` and
   * `dv.toLowerCase()`. `None` stands for the NumberFormatException that
   * `toInt()` throws.
   */
  function New(number: string, dv: string): (r: Option<Rut>)
    ensures r.Some? <==> ToInt(number).Some?
    ensures r.Some? ==> r.value.number == ToInt(number).value && r.value.dv == ToLower(dv)
  {
    match ToInt(number)
    case None => None
    case Some(n) => Some(Rut(n, ToLower(dv)))
  }

  /** Every Int, written out, constructs the Rut of that Int, whatever its sign. */
  lemma NewOfIntToString(n: Int32, dv: string)
    ensures New(IntToString(n), dv) == Some(Rut(n, ToLower(dv)))
  {
    ToIntOfIntToString(n);
  }

  /** The dots of a grouped body are not stripped: "12.345.678" does not read as an Int. */
  lemma DottedBodyRejected(dv: string)
    ensures New("12.345.678", dv) == None
  {
    assert "12.345.678"[2] == '.';
  }

  /**
   * `isValidNumber`: its pattern is empty, and an empty pattern matches only
   * the empty text, which `toInt()` refuses; so every text it accepts makes
   * the constructor throw, and the check, were it enabled, would let no Rut
   * be built.
   */
  function IsValidNumber(number: string): (b: bool)
    ensures b ==> forall dv :: New(number, dv) == None
    ensures b <==> number == []
  {
    |number| == 0
  }

  /**
   * `calcDv`: the same loop as in the current class, over any Int; a body
   * <= 0 has no digits to read and gets "0".
   */
  method CalcDv(number: Int32) returns (dv: string)
    ensures dv == CheckDigit(number)
    ensures number <= 0 ==> dv == "0"
    ensures IsCheckSymbol(dv)
  {
    var copy := number;
    var sum := 0;
    var index := 0;
    ghost var place: nat := 0;
    while copy > 0
      invariant 0 <= index < |Serie| && index == place % |Serie|
      invariant sum + WeightedSum(copy, place) == WeightedSum(number, 0)
    {
      LoopStep(copy, place, index);
      sum := sum + Serie[index] * (copy % 10);
      copy := copy / 10;
      index := if index < |Serie| - 1 then index + 1 else 0;
      place := place + 1;
    }
    dv := DvFromResult(11 - sum % 11);
    CheckDigitCompletesSum(number);
  }

  /** `isValid`: the stored check digit is the computed one. */
  function IsValid(r: Rut): (b: bool)
    ensures b <==> IsCheckSymbol(r.dv) && (WeightedSum(r.number, 0) + SymbolValue(r.dv)) % 11 == 0
  {
    CheckDigitCharacterised(r.number, r.dv);
    CheckDigit(r.number) == r.dv
  }

  /** With no range check, every body <= 0 is valid with check digit "0", and with no other. */
  lemma NonPositiveBodies(n: Int32, dv: string)
    requires n <= 0
    ensures IsValid(Rut(n, dv)) <==> dv == "0"
  {
    assert CheckDigit(n) == "0";
  }

  /** So "0" and "-5" with "0" build valid Ruts. */
  lemma ZeroAndNegativeAreValid()
    ensures New("0", "0").Some? && IsValid(New("0", "0").value)
    ensures New("-5", "0").Some? && IsValid(New("-5", "0").value)
  {
    NewOfIntToString(0, "0");
    NewOfIntToString(-5, "0");
    NonPositiveBodies(0, "0");
    NonPositiveBodies(-5, "0");
  }

  /**
   * `format`: FULL groups the digits of the body by three with '.' (and, as
   * `replace(",", ".")` runs over the whole text, turns any ',' in the check
   * digit into '.'), ONLY_DASH has only the '-', ESCAPED neither. FULL puts
   * the check digit into the format string itself, after the `%,d` that
   * uses the only argument, so a '%' in it is read as a directive.
   */
  function Format(r: Rut, style: RutFormat): Result<string, FormatError>
  {
    match style
    case Full =>
      (match FormatTail(r.dv)
       case Failure(e) => Failure(e)
       case Success(tail) => Success(ReplaceAll(FormatThousands(r.number) + "-" + tail, ',', ".")))
    case OnlyDash => Success(IntToString(r.number) + "-" + r.dv)
    case Escaped => Success(IntToString(r.number) + r.dv)
  }

  /** The decimal digits of the magnitude of n. */
  function Magnitude(n: int): string
  {
    NatToString(if n < 0 then -n else n)
  }

  /**
   * What the three formats look like, for bodies of either sign. FULL throws
   * exactly when the check digit, read as format text, does.
   */
  lemma FormatShapes(r: Rut)
    ensures FormatTail(r.dv).Failure? ==> Format(r, Full) == Failure(FormatTail(r.dv).error)
    ensures FormatTail(r.dv).Success? ==>
      Format(r, Full) == Success((if r.number < 0 then "-" else "") + Group(Magnitude(r.number), '.') + "-" + ReplaceAll(FormatTail(r.dv).value, ',', "."))
    ensures Format(r, OnlyDash) == Success((if r.number < 0 then "-" else "") + Magnitude(r.number) + "-" + r.dv)
    ensures Format(r, Escaped) == Success((if r.number < 0 then "-" else "") + Magnitude(r.number) + r.dv)
  {
    var sign := if r.number < 0 then "-" else "";
    var d := Magnitude(r.number);
    assert FormatThousands(r.number) == sign + Group(d, ',');
    assert IntToString(r.number) == sign + d;
    if FormatTail(r.dv).Success? {
      var tail := FormatTail(r.dv).value;
      ReplaceAllAppend(sign + Group(d, ',') + "-", tail, ',', ".");
      ReplaceAllAppend(sign + Group(d, ','), "-", ',', ".");
      ReplaceAllAppend(sign, Group(d, ','), ',', ".");
      ReplaceGroupSeparator(d);
      assert ReplaceAll("-", ',', ".") == "-";
      assert ReplaceAll(sign, ',', ".") == sign;
    }
  }

  /**
   * For a check digit without ',', '.' or '%', FULL succeeds, and its digits
   * with the dots dropped are those of ONLY_DASH.
   */
  lemma FullWithoutDotsIsOnlyDash(r: Rut)
    requires forall i :: 0 <= i < |r.dv| ==> r.dv[i] != ',' && r.dv[i] != '.' && r.dv[i] != '%'
    ensures Format(r, Full).Success?
    ensures ReplaceAll(Format(r, Full).value, '.', "") == Format(r, OnlyDash).value
  {
    var sign := if r.number < 0 then "-" else "";
    var d := Magnitude(r.number);
    FormatTailPlain(r.dv);
    FormatShapes(r);
    ReplaceAllAbsent(r.dv, ',', ".");
    GroupStripped(d);
    ReplaceAllAppend(sign + Group(d, '.') + "-", r.dv, '.', "");
    ReplaceAllAppend(sign + Group(d, '.'), "-", '.', "");
    ReplaceAllAppend(sign, Group(d, '.'), '.', "");
    ReplaceAllAbsent(r.dv, '.', "");
    assert ReplaceAll("-", '.', "") == "-";
    assert ReplaceAll(sign, '.', "") == sign;
  }

  /** FULL for the body 1, whatever the check digit. */
  lemma FullOfOne(dv: string)
    ensures FormatTail(dv).Failure? ==> Format(Rut(1, dv), Full) == Failure(FormatTail(dv).error)
    ensures FormatTail(dv).Success? ==> Format(Rut(1, dv), Full) == Success("1-" + ReplaceAll(FormatTail(dv).value, ',', "."))
  {
    FormatShapes(Rut(1, dv));
    assert Magnitude(1) == "1";
    assert Group("1", '.') == "1";
    if FormatTail(dv).Success? {
      var t := ReplaceAll(FormatTail(dv).value, ',', ".");
      assert "" + "1" + "-" + t == "1-" + t;
    }
  }

  /**
   * The check digit is any text, so FULL can throw: a lone '%' is an unknown
   * conversion, and "%d" asks for a second argument.
   */
  lemma PercentInCheckDigit()
    ensures Format(Rut(1, "%"), Full) == Failure(UnknownFormatConversion)
    ensures Format(Rut(1, "%d"), Full) == Failure(MissingFormatArgument)
  {
    FormatTailDirectives();
    FullOfOne("%");
    FullOfOne("%d");
  }

  /** "%%" in the check digit writes '%', and "%n" a line break. */
  lemma EscapesInCheckDigit()
    ensures Format(Rut(1, "%%"), Full) == Success("1-%")
    ensures Format(Rut(1, "%n"), Full) == Success("1-" + LineSeparator)
  {
    FormatTailDirectives();
    FullOfOne("%%");
    FullOfOne("%n");
    var percent := "%";
    var newline := LineSeparator;
    assert ReplaceAll(percent[1..], ',', ".") == [];
    assert ReplaceAll(percent, ',', ".") == percent;
    assert ReplaceAll(newline[1..], ',', ".") == [];
    assert ReplaceAll(newline, ',', ".") == newline;
    assert "1-" + percent == "1-%";
  }
}
