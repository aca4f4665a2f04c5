/**
 * The concrete cases of the repository's test class, stated against the
 * current Rut class (the API the tests call: the constructor, `parse`,
 * `format` with RUTFORMAT, `isValid` and `<`).
 */
module RutTests {
  import opened Results
  import opened Kotlin
  import opened Grammar
  import opened Checksum
  import opened MrcotoRut
  import EspinRut

  // ----- Check digits of the bodies the tests use, digit by digit -----

  lemma CheckDigitOf1()
    ensures CheckDigit(1) == "9"
  {
    assert WeightedSum(1, 0) == 2;
    assert DvFromResult(9) == "9";
  }

  lemma CheckDigitOf21198663()
    ensures CheckDigit(21198663) == "8"
  {
    WeightedSumOfEightDigits(21198663, 2, 1, 1, 9, 8, 6, 6, 3);
    assert DvFromResult(8) == "8";
  }

  lemma CheckDigitOf13239959()
    ensures CheckDigit(13239959) == "k"
  {
    WeightedSumOfEightDigits(13239959, 1, 3, 2, 3, 9, 9, 5, 9);
    assert DvFromResult(10) == "k";
  }

  lemma CheckDigitOf11765793()
    ensures CheckDigit(11765793) == "0"
  {
    WeightedSumOfEightDigits(11765793, 1, 1, 7, 6, 5, 7, 9, 3);
    assert DvFromResult(11) == "0";
  }

  lemma CheckDigitOf15605286()
    ensures CheckDigit(15605286) == "8"
  {
    WeightedSumOfEightDigits(15605286, 1, 5, 6, 0, 5, 2, 8, 6);
    assert DvFromResult(8) == "8";
  }

  lemma CheckDigitOf5942232()
    ensures CheckDigit(5942232) == "4"
  {
    WeightedSumOfEightDigits(5942232, 0, 5, 9, 4, 2, 2, 3, 2);
    assert DvFromResult(4) == "4";
  }

  lemma CheckDigitOf19253299()
    ensures CheckDigit(19253299) == "k"
  {
    WeightedSumOfEightDigits(19253299, 1, 9, 2, 5, 3, 2, 9, 9);
    assert DvFromResult(10) == "k";
  }

  lemma CheckDigitOf21313774()
    ensures CheckDigit(21313774) == "3"
  {
    WeightedSumOfEightDigits(21313774, 2, 1, 3, 1, 3, 7, 7, 4);
    assert DvFromResult(3) == "3";
  }

  lemma CheckDigitOf21770960()
    ensures CheckDigit(21770960) == "1"
  {
    WeightedSumOfEightDigits(21770960, 2, 1, 7, 7, 0, 9, 6, 0);
    assert DvFromResult(1) == "1";
  }

  lemma CheckDigitOf19963722()
    ensures CheckDigit(19963722) == "3"
  {
    WeightedSumOfEightDigits(19963722, 1, 9, 9, 6, 3, 7, 2, 2);
    assert DvFromResult(3) == "3";
  }

  lemma CheckDigitOf14713193()
    ensures CheckDigit(14713193) == "3"
  {
    WeightedSumOfEightDigits(14713193, 1, 4, 7, 1, 3, 1, 9, 3);
    assert DvFromResult(3) == "3";
  }

  lemma CheckDigitOf14449209()
    ensures CheckDigit(14449209) == "9"
  {
    WeightedSumOfEightDigits(14449209, 1, 4, 4, 4, 9, 2, 0, 9);
    assert DvFromResult(9) == "9";
  }

  lemma CheckDigitOf17679133()
    ensures CheckDigit(17679133) == "0"
  {
    WeightedSumOfEightDigits(17679133, 1, 7, 6, 7, 9, 1, 3, 3);
    assert DvFromResult(11) == "0";
  }

  // ----- The decimal forms of the bodies the tests use -----

  lemma Digits21198663()
    ensures NatToString(21198663) == "21198663"
  {
    assert NatToString(2) == "2";
    assert NatToString(21) == "21";
    assert NatToString(211) == "211";
    assert NatToString(2119) == "2119";
    assert NatToString(21198) == "21198";
    assert NatToString(211986) == "211986";
    assert NatToString(2119866) == "2119866";
  }

  lemma Digits21313774()
    ensures NatToString(21313774) == "21313774"
  {
    assert NatToString(2) == "2";
    assert NatToString(21) == "21";
    assert NatToString(213) == "213";
    assert NatToString(2131) == "2131";
    assert NatToString(21313) == "21313";
    assert NatToString(213137) == "213137";
    assert NatToString(2131377) == "2131377";
  }

  lemma Digits13239959()
    ensures NatToString(13239959) == "13239959"
  {
    assert NatToString(1) == "1";
    assert NatToString(13) == "13";
    assert NatToString(132) == "132";
    assert NatToString(1323) == "1323";
    assert NatToString(13239) == "13239";
    assert NatToString(132399) == "132399";
    assert NatToString(1323995) == "1323995";
  }

  lemma Digits21770960()
    ensures NatToString(21770960) == "21770960"
  {
    assert NatToString(2) == "2";
    assert NatToString(21) == "21";
    assert NatToString(217) == "217";
    assert NatToString(2177) == "2177";
    assert NatToString(21770) == "21770";
    assert NatToString(217709) == "217709";
    assert NatToString(2177096) == "2177096";
  }

  lemma Digits19963722()
    ensures NatToString(19963722) == "19963722"
  {
    assert NatToString(1) == "1";
    assert NatToString(19) == "19";
    assert NatToString(199) == "199";
    assert NatToString(1996) == "1996";
    assert NatToString(19963) == "19963";
    assert NatToString(199637) == "199637";
    assert NatToString(1996372) == "1996372";
  }

  lemma Digits11765793()
    ensures NatToString(11765793) == "11765793"
  {
    assert NatToString(1) == "1";
    assert NatToString(11) == "11";
    assert NatToString(117) == "117";
    assert NatToString(1176) == "1176";
    assert NatToString(11765) == "11765";
    assert NatToString(117657) == "117657";
    assert NatToString(1176579) == "1176579";
  }

  lemma Digits14713193()
    ensures NatToString(14713193) == "14713193"
  {
    assert NatToString(1) == "1";
    assert NatToString(14) == "14";
    assert NatToString(147) == "147";
    assert NatToString(1471) == "1471";
    assert NatToString(14713) == "14713";
    assert NatToString(147131) == "147131";
    assert NatToString(1471319) == "1471319";
  }

  lemma Digits14449209()
    ensures NatToString(14449209) == "14449209"
  {
    assert NatToString(1) == "1";
    assert NatToString(14) == "14";
    assert NatToString(144) == "144";
    assert NatToString(1444) == "1444";
    assert NatToString(14449) == "14449";
    assert NatToString(144492) == "144492";
    assert NatToString(1444920) == "1444920";
  }

  lemma Digits15605286()
    ensures NatToString(15605286) == "15605286"
  {
    assert NatToString(1) == "1";
    assert NatToString(15) == "15";
    assert NatToString(156) == "156";
    assert NatToString(1560) == "1560";
    assert NatToString(15605) == "15605";
    assert NatToString(156052) == "156052";
    assert NatToString(1560528) == "1560528";
  }

  lemma Digits5942232()
    ensures NatToString(5942232) == "5942232"
  {
    assert NatToString(5) == "5";
    assert NatToString(59) == "59";
    assert NatToString(594) == "594";
    assert NatToString(5942) == "5942";
    assert NatToString(59422) == "59422";
    assert NatToString(594223) == "594223";
  }

  lemma Digits17679133()
    ensures NatToString(17679133) == "17679133"
  {
    assert NatToString(1) == "1";
    assert NatToString(17) == "17";
    assert NatToString(176) == "176";
    assert NatToString(1767) == "1767";
    assert NatToString(17679) == "17679";
    assert NatToString(176791) == "176791";
    assert NatToString(1767913) == "1767913";
  }

  lemma Digits19253299()
    ensures NatToString(19253299) == "19253299"
  {
    assert NatToString(1) == "1";
    assert NatToString(19) == "19";
    assert NatToString(192) == "192";
    assert NatToString(1925) == "1925";
    assert NatToString(19253) == "19253";
    assert NatToString(192532) == "192532";
    assert NatToString(1925329) == "1925329";
  }

  lemma Digits12345678()
    ensures NatToString(12345678) == "12345678"
  {
    assert NatToString(1) == "1";
    assert NatToString(12) == "12";
    assert NatToString(123) == "123";
    assert NatToString(1234) == "1234";
    assert NatToString(12345) == "12345";
    assert NatToString(123456) == "123456";
    assert NatToString(1234567) == "1234567";
  }

  lemma Digits1234()
    ensures NatToString(1234) == "1234"
  {
    assert NatToString(1) == "1";
    assert NatToString(12) == "12";
    assert NatToString(123) == "123";
  }

  lemma Digits1345()
    ensures NatToString(1345) == "1345"
  {
    assert NatToString(1) == "1";
    assert NatToString(13) == "13";
    assert NatToString(134) == "134";
  }

  /** Constructing from the plain digits of n and a lower-case check symbol gives Rut(n, dv). */
  lemma Constructs(body: string, n: int, dv: string)
    requires 1 <= n <= MaxNumber && NatToString(n) == body && IsCheckSymbol(dv)
    ensures New(body, dv) == Success(Rut(n, dv))
  {
    WellformedIsConstructed(Rut(n, dv));
  }

  // ----- The Ruts the tests expect to be valid, and the same bodies with a wrong check digit -----

  lemma Constructs1()
    ensures New("1", "9") == Success(Rut(1, "9")) && New("1", "0") == Success(Rut(1, "0"))
  {
    Constructs("1", 1, "9");
    Constructs("1", 1, "0");
  }

  lemma Validity1()
    ensures IsValid(Rut(1, "9")) && !IsValid(Rut(1, "0"))
  {
    CheckDigitOf1();
  }

  lemma Constructs21198663()
    ensures New("21198663", "8") == Success(Rut(21198663, "8")) && New("21198663", "7") == Success(Rut(21198663, "7"))
  {
    Digits21198663();
    Constructs("21198663", 21198663, "8");
    Constructs("21198663", 21198663, "7");
  }

  lemma Validity21198663()
    ensures IsValid(Rut(21198663, "8")) && !IsValid(Rut(21198663, "7"))
  {
    CheckDigitOf21198663();
  }

  lemma Constructs21313774()
    ensures New("21313774", "3") == Success(Rut(21313774, "3")) && New("21313774", "4") == Success(Rut(21313774, "4"))
  {
    Digits21313774();
    Constructs("21313774", 21313774, "3");
    Constructs("21313774", 21313774, "4");
  }

  lemma Validity21313774()
    ensures IsValid(Rut(21313774, "3")) && !IsValid(Rut(21313774, "4"))
  {
    CheckDigitOf21313774();
  }

  lemma Constructs13239959()
    ensures New("13239959", "k") == Success(Rut(13239959, "k")) && New("13239959", "1") == Success(Rut(13239959, "1"))
  {
    Digits13239959();
    Constructs("13239959", 13239959, "k");
    Constructs("13239959", 13239959, "1");
  }

  lemma Validity13239959()
    ensures IsValid(Rut(13239959, "k")) && !IsValid(Rut(13239959, "1"))
  {
    CheckDigitOf13239959();
  }

  lemma Constructs21770960()
    ensures New("21770960", "1") == Success(Rut(21770960, "1")) && New("21770960", "2") == Success(Rut(21770960, "2"))
  {
    Digits21770960();
    Constructs("21770960", 21770960, "1");
    Constructs("21770960", 21770960, "2");
  }

  lemma Validity21770960()
    ensures IsValid(Rut(21770960, "1")) && !IsValid(Rut(21770960, "2"))
  {
    CheckDigitOf21770960();
  }

  lemma Constructs19963722()
    ensures New("19963722", "3") == Success(Rut(19963722, "3")) && New("19963722", "6") == Success(Rut(19963722, "6"))
  {
    Digits19963722();
    Constructs("19963722", 19963722, "3");
    Constructs("19963722", 19963722, "6");
  }

  lemma Validity19963722()
    ensures IsValid(Rut(19963722, "3")) && !IsValid(Rut(19963722, "6"))
  {
    CheckDigitOf19963722();
  }

  lemma Constructs11765793()
    ensures New("11765793", "0") == Success(Rut(11765793, "0")) && New("11765793", "7") == Success(Rut(11765793, "7"))
  {
    Digits11765793();
    Constructs("11765793", 11765793, "0");
    Constructs("11765793", 11765793, "7");
  }

  lemma Validity11765793()
    ensures IsValid(Rut(11765793, "0")) && !IsValid(Rut(11765793, "7"))
  {
    CheckDigitOf11765793();
  }

  lemma Constructs14713193()
    ensures New("14713193", "3") == Success(Rut(14713193, "3")) && New("14713193", "9") == Success(Rut(14713193, "9"))
  {
    Digits14713193();
    Constructs("14713193", 14713193, "3");
    Constructs("14713193", 14713193, "9");
  }

  lemma Validity14713193()
    ensures IsValid(Rut(14713193, "3")) && !IsValid(Rut(14713193, "9"))
  {
    CheckDigitOf14713193();
  }

  lemma Constructs14449209()
    ensures New("14449209", "9") == Success(Rut(14449209, "9")) && New("14449209", "0") == Success(Rut(14449209, "0"))
  {
    Digits14449209();
    Constructs("14449209", 14449209, "9");
    Constructs("14449209", 14449209, "0");
  }

  lemma Validity14449209()
    ensures IsValid(Rut(14449209, "9")) && !IsValid(Rut(14449209, "0"))
  {
    CheckDigitOf14449209();
  }

  lemma Constructs15605286()
    ensures New("15605286", "8") == Success(Rut(15605286, "8")) && New("15605286", "k") == Success(Rut(15605286, "k"))
  {
    Digits15605286();
    Constructs("15605286", 15605286, "8");
    Constructs("15605286", 15605286, "k");
  }

  lemma Validity15605286()
    ensures IsValid(Rut(15605286, "8")) && !IsValid(Rut(15605286, "k"))
  {
    CheckDigitOf15605286();
  }

  lemma Constructs5942232()
    ensures New("5942232", "4") == Success(Rut(5942232, "4")) && New("5942232", "1") == Success(Rut(5942232, "1"))
  {
    Digits5942232();
    Constructs("5942232", 5942232, "4");
    Constructs("5942232", 5942232, "1");
  }

  lemma Validity5942232()
    ensures IsValid(Rut(5942232, "4")) && !IsValid(Rut(5942232, "1"))
  {
    CheckDigitOf5942232();
  }

  // ----- Formats -----

  /** The three formats of a constructed Rut, given its decimal digits and their grouping. */
  lemma FormatOf(r: Rut, digits: string, grouped: string)
    requires Wellformed(r) && NatToString(r.number) == digits && Group(digits, '.') == grouped
    ensures Format(r, Full) == grouped + "-" + r.dv
    ensures Format(r, OnlyDash) == digits + "-" + r.dv
    ensures Format(r, Escaped) == digits + r.dv
  {
    FormatShapes(r);
  }

  lemma Grouped15605286()
    ensures Group("15605286", '.') == "15.605.286"
  {
    assert Group("15", '.') == "15";
    assert Group("15605", '.') == "15.605";
    assert Group("15605286", '.') == "15.605.286";
  }

  lemma Grouped13239959()
    ensures Group("13239959", '.') == "13.239.959"
  {
    assert Group("13", '.') == "13";
    assert Group("13239", '.') == "13.239";
    assert Group("13239959", '.') == "13.239.959";
  }

  lemma Grouped19253299()
    ensures Group("19253299", '.') == "19.253.299"
  {
    assert Group("19", '.') == "19";
    assert Group("19253", '.') == "19.253";
    assert Group("19253299", '.') == "19.253.299";
  }

  lemma Grouped12345678()
    ensures Group("12345678", '.') == "12.345.678"
  {
    assert Group("12", '.') == "12";
    assert Group("12345", '.') == "12.345";
    assert Group("12345678", '.') == "12.345.678";
  }

  lemma Formats15605286()
    ensures Format(Rut(15605286, "8"), Full) == "15.605.286-8"
    ensures Format(Rut(15605286, "8"), OnlyDash) == "15605286-8"
    ensures Format(Rut(15605286, "8"), Escaped) == "156052868"
  {
    Digits15605286();
    Grouped15605286();
    FormatOf(Rut(15605286, "8"), "15605286", "15.605.286");
  }

  lemma Formats1()
    ensures Format(Rut(1, "9"), Full) == "1-9"
    ensures Format(Rut(1, "9"), OnlyDash) == "1-9"
    ensures Format(Rut(1, "9"), Escaped) == "19"
  {
    FormatOf(Rut(1, "9"), "1", "1");
  }

  lemma Formats13239959()
    ensures Format(Rut(13239959, "k"), Full) == "13.239.959-k"
  {
    Digits13239959();
    Grouped13239959();
    FormatOf(Rut(13239959, "k"), "13239959", "13.239.959");
  }

  // ----- Parsing -----

  /** A text whose next-to-last character is not '-' is read as the body before its last character. */
  lemma ParseSplit(text: string)
    requires |text| >= 2 && text[|text| - 2] != '-'
    ensures Parse(text) == New(text[..|text| - 1], [text[|text| - 1]])
  {
  }

  /** An upper-case check digit builds the same Rut as its lower-case form. */
  lemma NewCaseInsensitive(number: string, c: char)
    requires IsBodyText(number) && IsDvText([c])
    ensures New(number, [c]) == New(number, ToLower([c]))
  {
    var l := LowerChar(c);
    assert ToLower([c]) == [l];
    assert LowerChar(l) == l;
    assert ToLower([l]) == [l];
  }

  /** The check character c of a constructed Rut, in either case, is accepted and lower-cased. */
  lemma LowerCheckDigit(n: int, c: char)
    requires Wellformed(Rut(n, [LowerChar(c)]))
    ensures IsDvText([c]) && ToLower([c]) == [LowerChar(c)]
  {
    assert ToLower([c]) == [LowerChar(c)];
  }

  /** The plain digits of n, with a check character c, build Rut(n, c in lower case). */
  lemma NewAsPlain(n: int, c: char)
    requires Wellformed(Rut(n, [LowerChar(c)]))
    ensures IsBodyText(NatToString(n))
    ensures New(NatToString(n), [c]) == Success(Rut(n, [LowerChar(c)]))
  {
    var d := NatToString(n);
    WellformedParts(Rut(n, [LowerChar(c)]));
    BodyDigitsAreBodyText(d);
    LowerCheckDigit(n, c);
    NewCaseInsensitive(d, c);
    WellformedIsConstructed(Rut(n, [LowerChar(c)]));
  }

  /** The '.'-grouped digits of n, with a check character c, build Rut(n, c in lower case). */
  lemma NewAsGrouped(n: int, c: char)
    requires Wellformed(Rut(n, [LowerChar(c)]))
    ensures IsBodyText(Group(NatToString(n), '.'))
    ensures New(Group(NatToString(n), '.'), [c]) == Success(Rut(n, [LowerChar(c)]))
  {
    var d := NatToString(n);
    WellformedParts(Rut(n, [LowerChar(c)]));
    GroupIsAllDots(d);
    BodyTextIsDottedBody(Group(d, '.'));
    LowerCheckDigit(n, c);
    NewCaseInsensitive(Group(d, '.'), c);
    GroupedIsConstructed(Rut(n, [LowerChar(c)]));
  }

  /**
   * The plain or the '.'-grouped digits of n, an optional '-' and a check
   * character c parse as Rut(n, c in lower case).
   */
  lemma ParsesAs(text: string, body: string, n: int, dash: bool, c: char)
    requires Wellformed(Rut(n, [LowerChar(c)]))
    requires body == NatToString(n) || body == Group(NatToString(n), '.')
    requires text == body + (if dash then "-" else "") + [c]
    ensures Parse(text) == Success(Rut(n, [LowerChar(c)]))
  {
    if body == NatToString(n) {
      NewAsPlain(n, c);
    } else {
      NewAsGrouped(n, c);
    }
    ParseAcceptsForms(body, dash, c);
  }

  // The five spellings of 19.253.299-k the tests parse all give the same Rut.

  lemma ParsedPlainDash()
    ensures Parse("19253299-k") == Success(Rut(19253299, "k"))
  {
    Digits19253299();
    ParsesAs("19253299-k", "19253299", 19253299, true, 'k');
  }

  lemma ParsedPlain()
    ensures Parse("19253299k") == Success(Rut(19253299, "k"))
  {
    Digits19253299();
    ParsesAs("19253299k", "19253299", 19253299, false, 'k');
  }

  lemma ParsedDottedDash()
    ensures Parse("19.253.299-k") == Success(Rut(19253299, "k"))
  {
    Digits19253299();
    Grouped19253299();
    ParsesAs("19.253.299-k", "19.253.299", 19253299, true, 'k');
  }

  lemma ParsedDotted()
    ensures Parse("19.253.299k") == Success(Rut(19253299, "k"))
  {
    Digits19253299();
    Grouped19253299();
    ParsesAs("19.253.299k", "19.253.299", 19253299, false, 'k');
  }

  lemma ParsedUpperCase()
    ensures Parse("19.253.299K") == Success(Rut(19253299, "k"))
  {
    Digits19253299();
    Grouped19253299();
    ParsesAs("19.253.299K", "19.253.299", 19253299, false, 'K');
  }

  lemma ParsedIsValid()
    ensures IsValid(Rut(19253299, "k"))
  {
    CheckDigitOf19253299();
  }

  lemma RejectedEmpty()
    ensures Parse("") == Failure(InvalidFormat) && Parse("0") == Failure(InvalidFormat)
  {
  }

  lemma Rejected1Dot2()
    ensures Parse("1.2") == Failure(InvalidFormat)
  {
    ParseSplit("1.2");
    assert "1.2"[..2] == "1.";
    BodyTextShape("1.");
    assert "1."[1] == '.';
  }

  lemma RejectedShortGroup()
    ensures Parse("12.345.67c") == Failure(InvalidFormat)
  {
    ParseSplit("12.345.67c");
    assert "12.345.67c"[..9] == "12.345.67";
    BodyTextShape("12.345.67");
    assert "12.345.67"[6] == '.';
  }

  lemma RejectedLetterInBody()
    ensures Parse("1a.345.678") == Failure(InvalidFormat)
  {
    ParseSplit("1a.345.678");
    assert "1a.345.678"[..9] == "1a.345.67";
    BodyTextShape("1a.345.67");
    assert "1a.345.67"[1] == 'a';
  }

  lemma RejectedLongGroup()
    ensures Parse("7.6543.21") == Failure(InvalidFormat)
  {
    ParseSplit("7.6543.21");
    assert "7.6543.21"[..8] == "7.6543.2";
    BodyTextShape("7.6543.2");
    assert "7.6543.2"[6] == '.';
  }

  lemma RejectedTrailingShortGroup()
    ensures Parse("123.456.78") == Failure(InvalidFormat)
  {
    ParseSplit("123.456.78");
    assert "123.456.78"[..9] == "123.456.7";
    BodyTextShape("123.456.7");
    assert "123.456.7"[7] == '.';
  }

  lemma RejectedTooManyGroups()
    ensures Parse("12.345.678.345") == Failure(InvalidFormat)
  {
    ParseSplit("12.345.678.345");
    assert "12.345.678.345"[..13] == "12.345.678.34";
    BodyTextShape("12.345.678.34");
    assert "12.345.678.34"[10] == '.';
  }

  lemma RejectedCommas()
    ensures Parse("12,345,678") == Failure(InvalidFormat)
  {
    ParseSplit("12,345,678");
    assert "12,345,678"[..9] == "12,345,67";
    BodyTextShape("12,345,67");
    assert "12,345,67"[2] == ',';
  }

  lemma RejectedCheckDigit()
    ensures Parse("12-A") == Failure(InvalidCheckDigit)
  {
    assert IsLead("12", 2);
  }

  /** Rut("1234", "3") < Rut("1345", "5"), and not the other way round. */
  lemma Comparison()
    ensures New("1234", "3") == Success(Rut(1234, "3")) && New("1345", "5") == Success(Rut(1345, "5"))
    ensures CompareTo(Rut(1234, "3"), Rut(1345, "5")) < 0
    ensures !(CompareTo(Rut(1234, "3"), Rut(1345, "5")) > 0)
  {
    Digits1234();
    Digits1345();
    Constructs("1234", 1234, "3");
    Constructs("1345", 1345, "5");
  }

  /** "12.345.678" with "K" and "12345678" with "k" build the same Rut. */
  lemma Normalisation()
    ensures New("12.345.678", "K") == New("12345678", "k") == Success(Rut(12345678, "k"))
  {
    Digits12345678();
    Grouped12345678();
    NewAsGrouped(12345678, 'K');
    NewAsPlain(12345678, 'k');
  }

  /** The older class's own example: "17679133" with "0" builds a valid Rut. */
  lemma OlderExample()
    ensures EspinRut.New("17679133", "0") == Some(EspinRut.Rut(17679133, "0"))
    ensures EspinRut.IsValid(EspinRut.Rut(17679133, "0"))
  {
    Digits17679133();
    assert ToLower("0") == "0";
    EspinRut.NewOfIntToString(17679133, "0");
    CheckDigitOf17679133();
  }

  /** Any rendering of the digits of n, with its own choice of dots, builds Rut(n, dv). */
  lemma NewOfDotted(body: string, n: int, dots: seq<bool>, dv: string)
    requires Wellformed(Rut(n, dv)) && |dots| == Gaps(NatToString(n)) && body == Dotted(NatToString(n), dots)
    ensures New(body, dv) == Success(Rut(n, dv))
  {
    var d := NatToString(n);
    WellformedParts(Rut(n, dv));
    StripDotted(d, dots);
    assert IsBodyDigits(d) && body == Dotted(d, dots);
    BodyTextIsDottedBody(body);
    NewOfDigitsOf(Rut(n, dv), body);
  }

  /** 12345678 with a '.' before its last group only. */
  lemma DottedLastGroupOnly()
    ensures Dotted("12345678", [true, false]) == "12345.678"
  {
    assert "12345678"[..5] == "12345" && "12345678"[5..] == "678";
    assert "12345"[..2] == "12" && "12345"[2..] == "345";
    assert Dotted("12345", [false]) == "12345";
  }

  /**
   * numberRgx lets each '.' be present or absent on its own, so a body
   * dotted before its last group only is accepted too.
   */
  lemma MixedGroupingAccepted()
    ensures New("12345.678", "k") == Success(Rut(12345678, "k"))
  {
    Digits12345678();
    DottedLastGroupOnly();
    NewOfDotted("12345.678", 12345678, [true, false], "k");
  }

  lemma CheckDigitOf1234567()
    ensures CheckDigit(1234567) == "4"
  {
    WeightedSumOfEightDigits(1234567, 0, 1, 2, 3, 4, 5, 6, 7);
    assert DvFromResult(4) == "4";
  }
}
