/**
 * The Kotlin and JVM library behaviour that the Rut classes rely on:
 * 32-bit `Int`, `Int.toString()`, `String.toInt()`, `String.toLowerCase()`,
 * `String.replace(old, new)` with a one-character `old`, and the `"%,d"`
 * format specifier. Only ASCII digits and ASCII letters are modelled.
 */
module Kotlin {
  import opened Results

  const IntMin: int := -0x8000_0000
  const IntMax: int := 0x7fff_ffff

  /** A Kotlin `Int`. */
  type Int32 = x: int | IntMin <= x <= IntMax

  predicate IsDigit(c: char) { '0' <= c <= '9' }

  predicate AllDigits(s: string) { forall i :: 0 <= i < |s| ==> IsDigit(s[i]) }

  function DigitChar(d: int): (c: char)
    requires 0 <= d <= 9
    ensures IsDigit(c)
  {
    ('0' as int + d) as char
  }

  function DigitValue(c: char): (d: nat)
    requires IsDigit(c)
    ensures d <= 9 && DigitChar(d) == c
  {
    c as int - '0' as int
  }

  function Pow10(k: nat): (p: nat)
    ensures p >= 1
  {
    if k == 0 then 1 else 10 * Pow10(k - 1)
  }

  lemma {:induction false} Pow10Monotonic(i: nat, j: nat)
    requires i <= j
    ensures Pow10(i) <= Pow10(j)
  {
    if i < j {
      Pow10Monotonic(i, j - 1);
    }
  }

  /** Decimal digits of a non-negative number, most significant first, without leading zeros. */
  function NatToString(n: nat): (s: string)
    ensures |s| >= 1 && AllDigits(s)
    ensures s[0] == '0' <==> n == 0
  {
    if n < 10 then [DigitChar(n)] else NatToString(n / 10) + [DigitChar(n % 10)]
  }

  /** `Int.toString()`: a leading '-' for negative numbers, then the decimal digits. */
  function IntToString(n: int): string
  {
    if n < 0 then "-" + NatToString(-n) else NatToString(n)
  }

  /** The number a string of decimal digits denotes. */
  function Value(s: string): nat
    requires AllDigits(s)
  {
    if s == [] then 0 else Value(s[..|s| - 1]) * 10 + DigitValue(s[|s| - 1])
  }

  lemma {:induction false} ValueOfNatToString(n: nat)
    ensures Value(NatToString(n)) == n
  {
    var s := NatToString(n);
    if n >= 10 {
      assert s[..|s| - 1] == NatToString(n / 10);
      ValueOfNatToString(n / 10);
    }
  }

  /** A string of k digits denotes a number below 10^k. */
  lemma {:induction false} ValueBelowPow10(s: string)
    requires AllDigits(s)
    ensures Value(s) < Pow10(|s|)
  {
    if s != [] {
      ValueBelowPow10(s[..|s| - 1]);
    }
  }

  /** A string of k digits that does not start with '0' denotes at least 10^(k-1). */
  lemma {:induction false} ValueAtLeastPow10(s: string)
    requires AllDigits(s) && |s| >= 1 && s[0] != '0'
    ensures Value(s) >= Pow10(|s| - 1)
  {
    if |s| > 1 {
      ValueAtLeastPow10(s[..|s| - 1]);
    }
  }

  /** Writing out the number a digit string without a leading zero denotes gives that string back. */
  lemma {:induction false} NatToStringOfValue(d: string)
    requires AllDigits(d) && |d| >= 1 && '1' <= d[0] <= '9'
    ensures NatToString(Value(d)) == d
  {
    if |d| > 1 {
      var front := d[..|d| - 1];
      ValueAtLeastPow10(front);
      NatToStringOfValue(front);
      assert d == front + [d[|d| - 1]];
    }
  }

  /**
   * `String.toInt()`: an optional sign followed by at least one digit, whose
   * value fits an `Int`. `None` stands for the NumberFormatException it throws.
   */
  function ToInt(s: string): (r: Option<Int32>)
  {
    if |s| == 0 then None
    else if s[0] == '-' || s[0] == '+' then
      if |s| == 1 || !AllDigits(s[1..]) then None
      else
        var v: int := if s[0] == '-' then 0 - Value(s[1..]) as int else Value(s[1..]);
        if IntMin <= v <= IntMax then Some(v) else None
    else if !AllDigits(s) then None
    else if Value(s) <= IntMax then Some(Value(s))
    else None
  }

  /** Reading back what `Int.toString()` wrote gives the same `Int`. */
  lemma ToIntOfIntToString(n: Int32)
    ensures ToInt(IntToString(n)) == Some(n)
  {
    var s := IntToString(n);
    if n < 0 {
      var m: nat := -(n as int);
      assert s[1..] == NatToString(m);
      ValueOfNatToString(m);
    } else {
      ValueOfNatToString(n);
    }
  }

  /** `toInt()` of at most nine plain digits never overflows. */
  lemma ToIntOfDigits(d: string)
    requires AllDigits(d) && 1 <= |d| <= 9
    ensures ToInt(d) == Some(Value(d))
  {
    ValueBelowPow10(d);
    Pow10Monotonic(|d|, 9);
    assert Pow10(9) == 1_000_000_000;
  }

  function LowerChar(c: char): char
  {
    if 'A' <= c <= 'Z' then (c as int - 'A' as int + 'a' as int) as char else c
  }

  /** `String.toLowerCase()`, on ASCII letters. */
  function ToLower(s: string): (r: string)
    ensures |r| == |s|
  {
    seq(|s|, i requires 0 <= i < |s| => LowerChar(s[i]))
  }

  /** `String.replace(old, new)` where `old` is one character: every occurrence is replaced. */
  function ReplaceAll(s: string, target: char, replacement: string): string
  {
    if s == [] then [] else (if s[0] == target then replacement else [s[0]]) + ReplaceAll(s[1..], target, replacement)
  }

  lemma {:induction false} ReplaceAllAppend(a: string, b: string, target: char, replacement: string)
    ensures ReplaceAll(a + b, target, replacement) == ReplaceAll(a, target, replacement) + ReplaceAll(b, target, replacement)
  {
    if a == [] {
      assert a + b == b;
    } else {
      assert (a + b)[1..] == a[1..] + b;
      ReplaceAllAppend(a[1..], b, target, replacement);
    }
  }

  lemma {:induction false} ReplaceAllAbsent(s: string, target: char, replacement: string)
    requires forall i :: 0 <= i < |s| ==> s[i] != target
    ensures ReplaceAll(s, target, replacement) == s
  {
    if s != [] {
      ReplaceAllAbsent(s[1..], target, replacement);
    }
  }

  /** Digits with `sep` inserted between groups of three, counted from the right. */
  function Group(d: string, sep: char): string
  {
    if |d| <= 3 then d else Group(d[..|d| - 3], sep) + [sep] + d[|d| - 3..]
  }

  /**
   * `"%,d".format(n)`: the sign, then the digits grouped by three with the
   * locale's grouping separator, taken here to be ','.
   */
  function FormatThousands(n: int): string
  {
    if n < 0 then "-" + Group(NatToString(-n), ',') else Group(NatToString(n), ',')
  }

  // ----- What `String.format` does with the text after its last argument -----

  /**
   * Why `String.format` throws, or where this model stops: a directive with
   * an unknown conversion (UnknownFormatConversionException), a directive
   * that needs an argument the call does not pass
   * (MissingFormatArgumentException), or a directive with an argument index,
   * '<', flags, a width, a precision or a date/time conversion, which this
   * model does not interpret.
   */
  datatype FormatError = UnknownFormatConversion | MissingFormatArgument | DirectiveNotModelled

  /** What `%n` writes: `System.lineSeparator()`, taken to be "\n". */
  const LineSeparator: string := "\n"

  /** The conversions that format an argument. */
  predicate IsArgumentConversion(c: char)
  {
    c in {'b', 'B', 'h', 'H', 's', 'S', 'c', 'C', 'd', 'o', 'x', 'X', 'e', 'E', 'f', 'g', 'G', 'a', 'A'}
  }

  /** The characters that open a directive with an index, '<', flags, a width, a precision or a date/time conversion. */
  predicate OpensLongDirective(c: char)
  {
    IsDigit(c) || c in {'-', '#', '+', ' ', ',', '(', '<', '.', 't', 'T'}
  }

  /** A format string as read: the text it writes, and whether some directive asks for an argument. */
  datatype Scanned = Scanned(text: string, needsArgument: bool)

  /**
   * Java's Formatter reads the whole format string, left to right, before it
   * writes anything, so the first directive it cannot read decides the
   * failure. Plain text is copied, `%%` writes '%', `%n` the line separator.
   */
  function ScanFormat(s: string): Result<Scanned, FormatError>
    decreases |s|
  {
    if s == [] then Success(Scanned([], false))
    else if s[0] != '%' then
      match ScanFormat(s[1..])
      case Failure(e) => Failure(e)
      case Success(rest) => Success(Scanned([s[0]] + rest.text, rest.needsArgument))
    else if |s| == 1 then Failure(UnknownFormatConversion)
    else if OpensLongDirective(s[1]) then Failure(DirectiveNotModelled)
    else if s[1] == '%' || s[1] == 'n' || IsArgumentConversion(s[1]) then
      match ScanFormat(s[2..])
      case Failure(e) => Failure(e)
      case Success(rest) =>
        if s[1] == '%' then Success(Scanned("%" + rest.text, rest.needsArgument))
        else if s[1] == 'n' then Success(Scanned(LineSeparator + rest.text, rest.needsArgument))
        else Success(Scanned(rest.text, true))
    else Failure(UnknownFormatConversion)
  }

  /** Text without '%' is read as itself, with no directive. */
  lemma {:induction false} ScanPlain(s: string)
    requires forall i :: 0 <= i < |s| ==> s[i] != '%'
    ensures ScanFormat(s) == Success(Scanned(s, false))
  {
    if s != [] {
      ScanPlain(s[1..]);
      assert [s[0]] + s[1..] == s;
    }
  }

  /**
   * The part of a format string that follows the directive using its last
   * argument: what it writes once every argument has been used, so that any
   * further directive taking an argument throws.
   */
  function FormatTail(s: string): Result<string, FormatError>
  {
    match ScanFormat(s)
    case Failure(e) => Failure(e)
    case Success(sc) => if sc.needsArgument then Failure(MissingFormatArgument) else Success(sc.text)
  }

  /** Text without '%' is written as it is. */
  lemma FormatTailPlain(s: string)
    requires forall i :: 0 <= i < |s| ==> s[i] != '%'
    ensures FormatTail(s) == Success(s)
  {
    ScanPlain(s);
  }

  /** What a directive of '%' and one character does after the last argument. */
  lemma FormatTailOfDirective(c: char)
    ensures FormatTail(['%', c]) ==
      if OpensLongDirective(c) then Failure(DirectiveNotModelled)
      else if c == '%' then Success("%")
      else if c == 'n' then Success(LineSeparator)
      else if IsArgumentConversion(c) then Failure(MissingFormatArgument)
      else Failure(UnknownFormatConversion)
  {
    var s := ['%', c];
    assert s[2..] == [] && s[1] == c;
    assert ScanFormat([]) == Success(Scanned([], false));
    assert "%" + [] == "%" && LineSeparator + [] == LineSeparator;
  }

  /** `%%` and `%n` write text; a lone '%', an unknown conversion, or one that needs an argument, throws. */
  lemma FormatTailDirectives()
    ensures FormatTail("%%") == Success("%")
    ensures FormatTail("%n") == Success(LineSeparator)
    ensures FormatTail("%") == Failure(UnknownFormatConversion)
    ensures FormatTail("%q") == Failure(UnknownFormatConversion)
    ensures FormatTail("%d") == Failure(MissingFormatArgument)
    ensures FormatTail("%<d") == Failure(DirectiveNotModelled)
  {
    assert !OpensLongDirective('%') && !OpensLongDirective('n') && !OpensLongDirective('q') && !OpensLongDirective('d');
    assert !IsArgumentConversion('q') && IsArgumentConversion('d') && OpensLongDirective('<');
    FormatTailOfDirective('%');
    FormatTailOfDirective('n');
    FormatTailOfDirective('q');
    FormatTailOfDirective('d');
    assert "%<d"[1] == '<';
  }

  /** Changing every ',' of a grouped digit string to '.' changes its separator. */
  lemma {:induction false} ReplaceGroupSeparator(d: string)
    requires AllDigits(d)
    ensures ReplaceAll(Group(d, ','), ',', ".") == Group(d, '.')
  {
    if |d| <= 3 {
      ReplaceAllAbsent(d, ',', ".");
    } else {
      var front, back := d[..|d| - 3], d[|d| - 3..];
      var inner := Group(front, ',');
      assert Group(d, ',') == inner + [','] + back;
      assert Group(d, '.') == Group(front, '.') + ['.'] + back;
      ReplaceGroupSeparator(front);
      ReplaceAllAppend(inner + [','], back, ',', ".");
      ReplaceAllAppend(inner, [','], ',', ".");
      ReplaceAllAbsent(back, ',', ".");
      assert ReplaceAll([','], ',', ".") == ".";
    }
  }

  /** Dropping the '.' separators of grouped digits gives the digits back. */
  lemma {:induction false} GroupStripped(d: string)
    requires AllDigits(d)
    ensures ReplaceAll(Group(d, '.'), '.', "") == d
  {
    if |d| <= 3 {
      ReplaceAllAbsent(d, '.', "");
    } else {
      var front, back := d[..|d| - 3], d[|d| - 3..];
      var inner := Group(front, '.');
      assert Group(d, '.') == inner + ['.'] + back;
      GroupStripped(front);
      ReplaceAllAppend(inner + ['.'], back, '.', "");
      ReplaceAllAppend(inner, ['.'], '.', "");
      ReplaceAllAbsent(back, '.', "");
      assert ReplaceAll(['.'], '.', "") == [];
      assert front + back == d;
    }
  }
}
