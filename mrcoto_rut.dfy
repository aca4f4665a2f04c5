/**
 * The current Rut class (package com.mrcoto.chilean_rut): a validating
 * constructor, `parse` of the textual forms, `calcDv`, `isValid`, the three
 * formats and the ordering and equality of Ruts.
 *
 * A Rut is immutable once built, so it is a datatype here, and the
 * constructor, which throws IllegalArgumentException on bad input, is a
 * function returning a Result.
 *
 * The datatype holds any number and any text, but the class only ever holds
 * what its constructor lets through: `Wellformed` states that domain, and
 * `MrcotoRut.New` (with `WellformedIsConstructed`) ties the two. `Format`,
 * `CompareTo` and `Equals` are total over the datatype; only their results
 * on well-formed Ruts describe the class.
 */
module MrcotoRut {
  import opened Results
  import opened Kotlin
  import opened Grammar
  import opened Checksum

  /** RUTFORMAT. */
  datatype RutFormat = Full | OnlyDash | Escaped

  /**
   * Why building a Rut fails: the body does not match numberRgx
   * ("Formato Inválido"), the check digit does not match dvRgx ("Dígito
   * Verificador inválido"), or `parse` indexed an empty prefix.
   */
  datatype RutError = InvalidFormat | InvalidCheckDigit | IndexOutOfBounds

  datatype Rut = Rut(number: int, dv: string)

  /** The largest body numberRgx admits: eight digits. */
  const MaxNumber: int := 99_999_999

  /** What every Rut the constructor returns satisfies. */
  predicate Wellformed(r: Rut)
  {
    1 <= r.number <= MaxNumber && IsCheckSymbol(r.dv)
  }

  /**
   * The constructor `Rut(number, dv)`: the body is checked before the check
   * digit; on success the body loses its dots and is read as an Int, and the
   * check digit is lower-cased.
   */
  function New(number: string, dv: string): (r: Result<Rut, RutError>)
    ensures r.Success? <==> IsBodyText(number) && IsDvText(dv)
    ensures r.Failure? ==> r.error == if IsBodyText(number) then InvalidCheckDigit else InvalidFormat
    ensures r.Success? ==> Wellformed(r.value)
    ensures r.Success? ==> IntToString(r.value.number) == ReplaceAll(number, '.', "")
    ensures r.Success? ==> r.value.dv == ToLower(dv)
  {
    if !IsBodyText(number) then Failure(InvalidFormat)
    else if !IsDvText(dv) then Failure(InvalidCheckDigit)
    else
      var digits := ReplaceAll(number, '.', "");
      BodyDigitsInRange(number);
      ToIntOfDigits(digits);
      Success(Rut(ToInt(digits).value, ToLower(dv)))
  }

  /** The digits of an accepted body denote a number in 1..99,999,999 and are its decimal form. */
  lemma BodyDigitsInRange(number: string)
    requires IsBodyText(number)
    ensures var digits := ReplaceAll(number, '.', "");
      IsBodyDigits(digits) && 1 <= Value(digits) <= MaxNumber && NatToString(Value(digits)) == digits
  {
    var digits := ReplaceAll(number, '.', "");
    BodyTextDigits(number);
    ValueBelowPow10(digits);
    ValueAtLeastPow10(digits);
    Pow10Monotonic(|digits|, 8);
    assert Pow10(8) == 100_000_000;
    NatToStringOfValue(digits);
  }

  /**
   * `parse(String)`: the last character is the check digit; one trailing '-'
   * of the rest is dropped and the remainder is the body. "" and "0" are
   * handed to `Rut("", "")`, which rejects them; any other one-character
   * text fails on indexing the empty prefix.
   */
  function Parse(text: string): (r: Result<Rut, RutError>)
    ensures r.Success? ==> Wellformed(r.value) && |text| >= 2
    ensures text == "" || text == "0" ==> r == Failure(InvalidFormat)
    ensures |text| == 1 && text != "0" ==> r == Failure(IndexOutOfBounds)
  {
    if text == "" || text == "0" then New("", "")
    else
      var dv := [text[|text| - 1]];
      var sub := text[..|text| - 1];
      if sub == "" then Failure(IndexOutOfBounds)
      else
        var number := if sub[|sub| - 1] == '-' then sub[..|sub| - 1] else sub;
        New(number, dv)
  }

  /** Every accepted body, with or without a '-', followed by any one character, parses as that body and character. */
  lemma ParseAcceptsForms(body: string, dash: bool, c: char)
    requires IsBodyText(body)
    ensures Parse(body + (if dash then "-" else "") + [c]) == New(body, [c])
  {
    BodyTextDigits(body);
    var text := body + (if dash then "-" else "") + [c];
    var sub := text[..|text| - 1];
    assert sub == body + (if dash then "-" else "");
    assert [text[|text| - 1]] == [c];
    if dash {
      assert sub[..|body|] == body;
    } else {
      assert sub == body;
      assert sub[|sub| - 1] != '-';
    }
    assert |text| >= 2 && text != "" && text != "0";
  }

  /** Every text that parses is a body, an optional '-' and a check digit, and parses as those. */
  lemma ParseOnlyAcceptsForms(text: string) returns (body: string, dash: bool, dv: string)
    requires Parse(text).Success?
    ensures IsBodyText(body) && IsDvText(dv)
    ensures text == body + (if dash then "-" else "") + dv
    ensures Parse(text) == New(body, dv)
  {
    var sub := text[..|text| - 1];
    dv := [text[|text| - 1]];
    dash := sub[|sub| - 1] == '-';
    body := if dash then sub[..|sub| - 1] else sub;
    assert sub == body + (if dash then "-" else "");
  }

  /**
   * `parse(Int)`: the decimal form of n with its computed check digit. It
   * succeeds exactly for 1..99,999,999, and then yields a valid Rut.
   */
  function ParseInt(n: Int32): (r: Result<Rut, RutError>)
    ensures r.Success? <==> 1 <= n <= MaxNumber
    ensures r.Success? ==> r.value.number == n && IsValid(r.value)
    ensures r.Failure? ==> r.error == InvalidFormat
  {
    NewOfIntToString(n);
    New(IntToString(n), CheckDigit(n))
  }

  /** The decimal form of an Int is an accepted body exactly when it is in 1..99,999,999. */
  lemma NewOfIntToString(n: Int32)
    ensures New(IntToString(n), CheckDigit(n))
      == if 1 <= n <= MaxNumber then Success(Rut(n, CheckDigit(n))) else Failure(InvalidFormat)
  {
    var body := IntToString(n);
    CheckDigitCompletesSum(n);
    if 1 <= n <= MaxNumber {
      WellformedIsConstructed(Rut(n, CheckDigit(n)));
    } else if IsBodyText(body) {
      BodyDigitsInRange(body);
      if n > MaxNumber {
        ReplaceAllAbsent(body, '.', "");
        ValueBelowPow10(body);
        Pow10Monotonic(|body|, 8);
        assert Pow10(8) == 100_000_000;
        ValueOfNatToString(n);
      }
    }
  }

  /**
   * `calcDv`: the loop reads the digits from the right, weighting each by
   * SERIE at an index that advances once per digit and wraps after 7.
   */
  method CalcDv(number: Int32) returns (dv: string)
    ensures dv == CheckDigit(number)
    ensures number <= 0 ==> dv == "0"
    ensures IsCheckSymbol(dv)
  {
    var copy := number;
    var sum := 0;
    var index := 0;
    ghost var place: nat := 0;
    while copy > 0
      invariant 0 <= index < |Serie| && index == place % |Serie|
      invariant sum + WeightedSum(copy, place) == WeightedSum(number, 0)
    {
      LoopStep(copy, place, index);
      sum := sum + Serie[index] * (copy % 10);
      copy := copy / 10;
      index := if index < |Serie| - 1 then index + 1 else 0;
      place := place + 1;
    }
    dv := DvFromResult(11 - sum % 11);
    CheckDigitCompletesSum(number);
  }

  /**
   * `isValid`: the stored check digit is the computed one, that is, a check
   * symbol whose value brings the weighted sum to a multiple of 11.
   */
  function IsValid(r: Rut): (b: bool)
    ensures b <==> IsCheckSymbol(r.dv) && (WeightedSum(r.number, 0) + SymbolValue(r.dv)) % 11 == 0
  {
    CheckDigitCharacterised(r.number, r.dv);
    CheckDigit(r.number) == r.dv
  }

  /** `format`: FULL groups the digits by three with '.', ONLY_DASH has only the '-', ESCAPED neither. */
  function Format(r: Rut, style: RutFormat): string
  {
    match style
    case Full => ReplaceAll(FormatThousands(r.number) + "-" + r.dv, ',', ".")
    case OnlyDash => IntToString(r.number) + "-" + r.dv
    case Escaped => IntToString(r.number) + r.dv
  }

  /** What the three formats of a constructed Rut look like. */
  lemma FormatShapes(r: Rut)
    requires Wellformed(r)
    ensures Format(r, Full) == Group(NatToString(r.number), '.') + "-" + r.dv
    ensures Format(r, OnlyDash) == NatToString(r.number) + "-" + r.dv
    ensures Format(r, Escaped) == NatToString(r.number) + r.dv
    ensures forall i :: 0 <= i < |Format(r, Escaped)| ==> Format(r, Escaped)[i] != '.' && Format(r, Escaped)[i] != '-'
  {
    var d := NatToString(r.number);
    ReplaceAllAppend(Group(d, ',') + "-", r.dv, ',', ".");
    ReplaceAllAppend(Group(d, ','), "-", ',', ".");
    ReplaceGroupSeparator(d);
    ReplaceAllAbsent(r.dv, ',', ".");
    assert ReplaceAll("-", ',', ".") == "-";
    var e := Format(r, Escaped);
    assert e == d + r.dv;
    forall i | 0 <= i < |e|
      ensures e[i] != '.' && e[i] != '-'
    {
      if i < |d| {
        assert IsDigit(d[i]);
      } else {
        assert e[i] == r.dv[0];
      }
    }
  }

  /** The decimal digits of a constructed Rut's body, and its check digit, pass the constructor's checks. */
  lemma WellformedParts(r: Rut)
    requires Wellformed(r)
    ensures IsBodyDigits(NatToString(r.number))
    ensures IsDvText(r.dv) && ToLower(r.dv) == r.dv && r.dv == [r.dv[0]]
  {
    var d := NatToString(r.number);
    ValueOfNatToString(r.number);
    ValueAtLeastPow10(d);
    if |d| > 8 {
      Pow10Monotonic(8, |d| - 1);
    }
    assert Pow10(8) == 100_000_000;
  }

  /** A body whose dots drop out to the decimal form of r's number, with r's check digit, constructs r. */
  lemma NewOfDigitsOf(r: Rut, body: string)
    requires Wellformed(r) && IsBodyText(body) && ReplaceAll(body, '.', "") == NatToString(r.number)
    ensures New(body, r.dv) == Success(r)
  {
    WellformedParts(r);
    var r' := New(body, r.dv).value;
    ValueOfNatToString(r.number);
    ValueOfNatToString(r'.number);
  }

  /** Every constructed Rut is the Rut its plain digits and check digit construct. */
  lemma WellformedIsConstructed(r: Rut)
    requires Wellformed(r)
    ensures New(NatToString(r.number), r.dv) == Success(r)
  {
    var d := NatToString(r.number);
    WellformedParts(r);
    BodyDigitsAreBodyText(d);
    ReplaceAllAbsent(d, '.', "");
    NewOfDigitsOf(r, d);
  }

  /** Every constructed Rut is also the Rut its digits grouped with '.' construct. */
  lemma GroupedIsConstructed(r: Rut)
    requires Wellformed(r)
    ensures New(Group(NatToString(r.number), '.'), r.dv) == Success(r)
  {
    var d := NatToString(r.number);
    WellformedParts(r);
    GroupIsAllDots(d);
    StripDotted(d, AllDots(Gaps(d)));
    BodyTextIsDottedBody(Group(d, '.'));
    NewOfDigitsOf(r, Group(d, '.'));
  }

  /** Parsing any format of a constructed Rut gives that Rut back. */
  lemma ParseFormat(r: Rut, style: RutFormat)
    requires Wellformed(r)
    ensures Parse(Format(r, style)) == Success(r)
  {
    var d := NatToString(r.number);
    FormatShapes(r);
    WellformedParts(r);
    if style == Full {
      GroupedIsConstructed(r);
      ParseAcceptsForms(Group(d, '.'), true, r.dv[0]);
    } else {
      WellformedIsConstructed(r);
      BodyDigitsAreBodyText(d);
      ParseAcceptsForms(d, style == OnlyDash, r.dv[0]);
    }
  }

  /** The dots of a body and the case of its check digit make no difference to the Rut built. */
  lemma NewNormalises(number: string, dv: string)
    requires New(number, dv).Success?
    ensures New(ReplaceAll(number, '.', ""), ToLower(dv)) == New(number, dv)
  {
    var r := New(number, dv).value;
    var digits := ReplaceAll(number, '.', "");
    BodyDigitsInRange(number);
    WellformedIsConstructed(r);
    assert digits == NatToString(r.number);
  }

  /** `compareTo`: the order of the bodies, as Int.compareTo gives it; the check digit plays no part. */
  function CompareTo(a: Rut, b: Rut): (c: int)
    ensures c < 0 <==> a.number < b.number
    ensures c == 0 <==> a.number == b.number
  {
    if a.number < b.number then -1 else if a.number == b.number then 0 else 1
  }

  /** `equals`: same body and same check digit. */
  function Equals(a: Rut, b: Rut): (e: bool)
    ensures e <==> a == b
    ensures e ==> CompareTo(a, b) == 0
  {
    a.number == b.number && a.dv == b.dv
  }

  /** `compareTo` is antisymmetric. */
  lemma CompareToAntisymmetric(a: Rut, b: Rut)
    ensures CompareTo(a, b) == -CompareTo(b, a)
  {
  }

  /** `compareTo` is transitive. */
  lemma CompareToTransitive(a: Rut, b: Rut, c: Rut)
    requires CompareTo(a, b) <= 0 && CompareTo(b, c) <= 0
    ensures CompareTo(a, c) <= 0
  {
  }

  /** On valid Ruts, comparing equal and being equal coincide; on others they need not. */
  lemma CompareToMatchesEqualsOnValid(a: Rut, b: Rut)
    requires IsValid(a) && IsValid(b)
    ensures CompareTo(a, b) == 0 <==> Equals(a, b)
  {
  }

  lemma CompareToIgnoresCheckDigit()
    ensures New("1", "9").Success? && New("1", "0").Success?
    ensures CompareTo(New("1", "9").value, New("1", "0").value) == 0
    ensures !Equals(New("1", "9").value, New("1", "0").value)
  {
    assert IsBodyText("1");
  }
}
