/**
 * The modulo-11 check digit of a Rut body, as `calcDv` and `dvFromResult`
 * compute it in both versions of the class: the digits are read from the
 * right, the i-th one (from 0) is weighted by SERIE[i mod 6] with
 * SERIE = [2, 3, 4, 5, 6, 7], and the weighted sum s is mapped through
 * 11 - s mod 11, where 11 stands for '0' and 10 for 'k'.
 */
module Checksum {
  import opened Kotlin

  /** SERIE, the cycle of weights. */
  const Serie: seq<int> := [2, 3, 4, 5, 6, 7]

  /**
   * The weighted sum of the digits of n, the digit at place i from the right
   * weighted by Serie[(pos + i) mod 6]. A number <= 0 has no digits to read.
   */
  function WeightedSum(n: int, pos: nat): nat
    decreases if n > 0 then n else 0
  {
    if n <= 0 then 0 else Serie[pos % 6] * (n % 10) + WeightedSum(n / 10, pos + 1)
  }

  /** dvFromResult: 11 is written "0", 10 is written "k", anything else in decimal. */
  function DvFromResult(result: int): string
  {
    if result == 11 then "0" else if result == 10 then "k" else IntToString(result)
  }

  /** The check digit calcDv returns for `number`. */
  function CheckDigit(number: int): string
  {
    DvFromResult(11 - WeightedSum(number, 0) % 11)
  }

  /** A lower-case check symbol: one of "0".."9" and "k". */
  predicate IsCheckSymbol(s: string)
  {
    |s| == 1 && (IsDigit(s[0]) || s[0] == 'k')
  }

  /** The value a check symbol stands for in the modulo-11 sum: its digit, or 10 for "k". */
  function SymbolValue(s: string): (v: nat)
    requires IsCheckSymbol(s)
    ensures v <= 10
  {
    if s[0] == 'k' then 10 else DigitValue(s[0])
  }

  lemma SymbolValueInjective(s: string, t: string)
    requires IsCheckSymbol(s) && IsCheckSymbol(t) && SymbolValue(s) == SymbolValue(t)
    ensures s == t
  {
    if s[0] != 'k' && t[0] != 'k' {
      assert DigitChar(DigitValue(s[0])) == s[0] && DigitChar(DigitValue(t[0])) == t[0];
    }
    assert s == [s[0]] && t == [t[0]];
  }

  /**
   * The check digit is always one lower-case symbol, and it is the one whose
   * value brings the weighted sum to a multiple of 11.
   */
  lemma CheckDigitCompletesSum(number: int)
    ensures IsCheckSymbol(CheckDigit(number))
    ensures (WeightedSum(number, 0) + SymbolValue(CheckDigit(number))) % 11 == 0
  {
    var sum := WeightedSum(number, 0);
    DvFromResultSymbol(11 - sum % 11);
    CompletesResidue(sum);
  }

  /** Adding (11 - sum mod 11) mod 11 to a sum makes it a multiple of 11. */
  lemma CompletesResidue(sum: int)
    ensures (sum + (11 - sum % 11) % 11) % 11 == 0
  {
    var q, m := sum / 11, sum % 11;
    assert sum == 11 * q + m;
    if m == 0 {
      assert (11 - m) % 11 == 0;
    } else {
      assert (11 - m) % 11 == 11 - m;
      assert sum + (11 - m) == 11 * (q + 1);
    }
  }

  /** dvFromResult maps 1..11 to the check symbol whose value is the result modulo 11. */
  lemma DvFromResultSymbol(result: int)
    requires 1 <= result <= 11
    ensures IsCheckSymbol(DvFromResult(result))
    ensures SymbolValue(DvFromResult(result)) == result % 11
  {
    if result < 10 {
      assert IntToString(result) == [DigitChar(result)];
      assert DigitValue(DigitChar(result)) == result;
    }
  }

  /**
   * A symbol is the check digit of `number` exactly when it is a check symbol
   * whose value brings the weighted sum to a multiple of 11.
   */
  lemma CheckDigitCharacterised(number: int, s: string)
    ensures CheckDigit(number) == s <==> IsCheckSymbol(s) && (WeightedSum(number, 0) + SymbolValue(s)) % 11 == 0
  {
    CheckDigitCompletesSum(number);
    var c := CheckDigit(number);
    if IsCheckSymbol(s) && (WeightedSum(number, 0) + SymbolValue(s)) % 11 == 0 {
      CompletionUnique(WeightedSum(number, 0), SymbolValue(s), SymbolValue(c));
      SymbolValueInjective(s, c);
    }
  }

  /** At most one value in 0..10 brings a sum to a multiple of 11. */
  lemma CompletionUnique(sum: int, a: int, b: int)
    requires 0 <= a <= 10 && 0 <= b <= 10
    requires (sum + a) % 11 == 0 && (sum + b) % 11 == 0
    ensures a == b
  {
    var p, q := (sum + a) / 11, (sum + b) / 11;
    assert sum + a == 11 * p && sum + b == 11 * q;
    assert a - b == 11 * (p - q);
  }

  /** Numbers whose weighted sums agree modulo 11 have the same check digit, and only they. */
  lemma CheckDigitsEqual(m: int, n: int)
    ensures CheckDigit(m) == CheckDigit(n) <==> WeightedSum(m, 0) % 11 == WeightedSum(n, 0) % 11
  {
    CheckDigitCompletesSum(m);
    CheckDigitCompletesSum(n);
    if CheckDigit(m) == CheckDigit(n) {
      var v := SymbolValue(CheckDigit(m));
      assert (WeightedSum(m, 0) + v) % 11 == (WeightedSum(n, 0) + v) % 11;
    } else {
      CheckDigitCharacterised(m, CheckDigit(n));
    }
  }

  /** One turn of calcDv's loop: the next digit's weight, and where the weight index goes next. */
  lemma LoopStep(copy: nat, place: nat, index: nat)
    requires index < |Serie| && index == place % |Serie|
    ensures WeightedSum(copy, place) == (if copy > 0 then Serie[index] * (copy % 10) + WeightedSum(copy / 10, place + 1) else 0)
    ensures (if index < |Serie| - 1 then index + 1 else 0) == (place + 1) % |Serie|
  {
  }

  /** Appending the digit d to m: d takes the weight of place pos, m's digits move one place up. */
  lemma WeightedSumPush(n: int, m: int, d: int, pos: nat, w: int)
    requires m >= 0 && 0 <= d <= 9 && n == 10 * m + d && w == Serie[pos % 6]
    ensures WeightedSum(n, pos) == w * d + WeightedSum(m, pos + 1)
  {
    if n > 0 {
      assert n / 10 == m && n % 10 == d;
    }
  }

  /** Four digits a b c d appended to m, weighted from place pos. */
  lemma WeightedSumOfFourDigits(n: int, m: int, a: int, b: int, c: int, d: int, pos: nat, wa: int, wb: int, wc: int, wd: int)
    requires m >= 0 && 0 <= a <= 9 && 0 <= b <= 9 && 0 <= c <= 9 && 0 <= d <= 9
    requires n == 10_000 * m + 1_000 * a + 100 * b + 10 * c + d
    requires wd == Serie[pos % 6] && wc == Serie[(pos + 1) % 6] && wb == Serie[(pos + 2) % 6] && wa == Serie[(pos + 3) % 6]
    ensures WeightedSum(n, pos) == wa * a + wb * b + wc * c + wd * d + WeightedSum(m, pos + 4)
  {
    var n1 := 10 * m + a;
    var n2 := 10 * n1 + b;
    var n3 := 10 * n2 + c;
    WeightedSumPush(n1, m, a, pos + 3, wa);
    WeightedSumPush(n2, n1, b, pos + 2, wb);
    WeightedSumPush(n3, n2, c, pos + 1, wc);
    WeightedSumPush(n, n3, d, pos, wd);
  }

  /**
   * The weighted sum of a body of up to eight digits a..h (most significant
   * first, leading zeros allowed): the units weigh 2, then 3, 4, 5, 6, 7 and
   * again 2, 3.
   */
  lemma WeightedSumOfEightDigits(n: int, a: int, b: int, c: int, d: int, e: int, f: int, g: int, h: int)
    requires 0 <= a <= 9 && 0 <= b <= 9 && 0 <= c <= 9 && 0 <= d <= 9
    requires 0 <= e <= 9 && 0 <= f <= 9 && 0 <= g <= 9 && 0 <= h <= 9
    requires n == 10_000_000 * a + 1_000_000 * b + 100_000 * c + 10_000 * d + 1_000 * e + 100 * f + 10 * g + h
    ensures WeightedSum(n, 0) == 3 * a + 2 * b + 7 * c + 6 * d + 5 * e + 4 * f + 3 * g + 2 * h
  {
    var high := 1_000 * a + 100 * b + 10 * c + d;
    WeightedSumOfFourDigits(n, high, e, f, g, h, 0, 5, 4, 3, 2);
    WeightedSumOfFourDigits(high, 0, a, b, c, d, 4, 3, 2, 7, 6);
    assert WeightedSum(0, 8) == 0;
  }

  // ----- Transcription errors the check digit detects -----

  /** The digit at place j from the right (place 0 is the units). */
  function Digit(n: nat, j: nat): (d: nat)
    ensures d <= 9
  {
    if j == 0 then n % 10 else Digit(n / 10, j - 1)
  }

  /** n with the digit at place j from the right replaced by b. */
  function ReplaceDigit(n: nat, j: nat, b: nat): nat
    requires b <= 9
  {
    if j == 0 then n / 10 * 10 + b else ReplaceDigit(n / 10, j - 1, b) * 10 + n % 10
  }

  lemma {:induction false} DigitOfReplaceDigit(n: nat, j: nat, b: nat, k: nat)
    requires b <= 9
    ensures Digit(ReplaceDigit(n, j, b), k) == if k == j then b else Digit(n, k)
  {
    var m := ReplaceDigit(n, j, b);
    if j == 0 {
      assert m % 10 == b && m / 10 == n / 10;
    } else {
      assert m % 10 == n % 10 && m / 10 == ReplaceDigit(n / 10, j - 1, b);
      if k > 0 {
        DigitOfReplaceDigit(n / 10, j - 1, b, k - 1);
      }
    }
  }

  /** What changing the digit at weight index k from a to b adds to a weighted sum. */
  function Change(k: nat, b: int, a: int): int
  {
    Serie[k % 6] * (b - a)
  }

  /** Replacing one digit changes the weighted sum by that place's weight times the change. */
  lemma {:induction false} WeightedSumOfReplaceDigit(n: nat, j: nat, b: nat, pos: nat)
    requires b <= 9
    ensures WeightedSum(ReplaceDigit(n, j, b), pos) == WeightedSum(n, pos) + Change(pos + j, b, Digit(n, j))
  {
    if j == 0 {
      WeightedSumOfReplaceUnits(n, b, pos);
    } else {
      var m := ReplaceDigit(n, j, b);
      WeightedSumOfReplaceDigit(n / 10, j - 1, b, pos + 1);
      assert pos + 1 + (j - 1) == pos + j;
      assert Digit(n, j) == Digit(n / 10, j - 1);
      ReplaceDigitSplits(n, j, b);
      WeightedSumStep(m, pos);
      WeightedSumStep(n, pos);
    }
  }

  /** The same, for the weighted sum calcDv computes. */
  lemma ReplaceDigitSum(n: nat, j: nat, b: nat)
    requires b <= 9
    ensures WeightedSum(ReplaceDigit(n, j, b), 0) == WeightedSum(n, 0) + Change(j, b, Digit(n, j))
  {
    WeightedSumOfReplaceDigit(n, j, b, 0);
    assert 0 + j == j;
  }

  /** Replacing a digit above the units keeps the units and replaces a digit of the rest. */
  lemma ReplaceDigitSplits(n: nat, j: nat, b: nat)
    requires b <= 9 && j > 0
    ensures ReplaceDigit(n, j, b) % 10 == n % 10
    ensures ReplaceDigit(n, j, b) / 10 == ReplaceDigit(n / 10, j - 1, b)
  {
  }

  /** One step of the weighted sum, stated for every n >= 0. */
  lemma WeightedSumStep(n: nat, pos: nat)
    ensures WeightedSum(n, pos) == Serie[pos % 6] * (n % 10) + WeightedSum(n / 10, pos + 1)
  {
  }

  lemma WeightedSumOfReplaceUnits(n: nat, b: nat, pos: nat)
    requires b <= 9
    ensures WeightedSum(ReplaceDigit(n, 0, b), pos) == WeightedSum(n, pos) + Change(pos, b, Digit(n, 0))
  {
    var m := ReplaceDigit(n, 0, b);
    var w := Serie[pos % 6];
    assert m % 10 == b && m / 10 == n / 10;
    WeightedSumStep(m, pos);
    WeightedSumStep(n, pos);
    assert w * b - w * (n % 10) == w * (b - n % 10);
  }

  /** A non-zero difference of two digits. */
  predicate IsDelta(delta: int)
  {
    -9 <= delta <= 9 && delta != 0
  }

  // No weight times a non-zero digit difference is a multiple of 11, one weight at a time.
  lemma Times2(delta: int) requires IsDelta(delta) ensures (2 * delta) % 11 != 0 { }
  lemma Times3(delta: int) requires IsDelta(delta) ensures (3 * delta) % 11 != 0 { }
  lemma Times4(delta: int) requires IsDelta(delta) ensures (4 * delta) % 11 != 0 { }
  lemma Times5(delta: int) requires IsDelta(delta) ensures (5 * delta) % 11 != 0 { }
  lemma Times6(delta: int) requires IsDelta(delta) ensures (6 * delta) % 11 != 0 { }
  lemma Times7(delta: int) requires IsDelta(delta) ensures (7 * delta) % 11 != 0 { }
  lemma Times1(delta: int) requires IsDelta(delta) ensures (-delta) % 11 != 0 { }

  /** No single-digit change is a multiple of 11: every weight is below 11 and 11 is prime. */
  lemma ChangeNotMultipleOf11(k: nat, b: int, a: int)
    requires 0 <= a <= 9 && 0 <= b <= 9 && a != b
    ensures Change(k, b, a) % 11 != 0
  {
    var delta := b - a;
    match k % 6
    case 0 => Times2(delta); assert Change(k, b, a) == 2 * delta;
    case 1 => Times3(delta); assert Change(k, b, a) == 3 * delta;
    case 2 => Times4(delta); assert Change(k, b, a) == 4 * delta;
    case 3 => Times5(delta); assert Change(k, b, a) == 5 * delta;
    case 4 => Times6(delta); assert Change(k, b, a) == 6 * delta;
    case 5 => Times7(delta); assert Change(k, b, a) == 7 * delta;
  }

  /** Adding a non-multiple of 11 changes a sum modulo 11. */
  lemma ShiftChangesResidue(sum: int, change: int)
    requires change % 11 != 0
    ensures (sum + change) % 11 != sum % 11
  {
  }

  /** Numbers whose weighted sums differ by a non-multiple of 11 have different check digits. */
  lemma ShiftDetected(m: int, n: int, change: int)
    requires WeightedSum(m, 0) == WeightedSum(n, 0) + change && change % 11 != 0
    ensures CheckDigit(m) != CheckDigit(n)
  {
    ShiftChangesResidue(WeightedSum(n, 0), change);
    CheckDigitsEqual(m, n);
  }

  /** Every single-digit substitution changes the check digit. */
  lemma SubstitutionDetected(n: nat, j: nat, b: nat)
    requires b <= 9 && b != Digit(n, j)
    ensures CheckDigit(ReplaceDigit(n, j, b)) != CheckDigit(n)
  {
    ReplaceDigitSum(n, j, b);
    ChangeNotMultipleOf11(j, b, Digit(n, j));
    ShiftDetected(ReplaceDigit(n, j, b), n, Change(j, b, Digit(n, j)));
  }

  /**
   * Swapping two different neighbouring digits changes the sum by the
   * difference of neighbouring weights (1, or 5 across the wrap from 7 back
   * to 2) times the difference of the digits, never a multiple of 11.
   */
  lemma SwapNotMultipleOf11(j: nat, a: int, b: int)
    requires 0 <= a <= 9 && 0 <= b <= 9 && a != b
    ensures (Change(j, b, a) + Change(j + 1, a, b)) % 11 != 0
  {
    var delta := b - a;
    var total := Change(j, b, a) + Change(j + 1, a, b);
    Times1(delta);
    Times5(delta);
    match j % 6
    case 0 => assert (j + 1) % 6 == 1 && total == -delta;
    case 1 => assert (j + 1) % 6 == 2 && total == -delta;
    case 2 => assert (j + 1) % 6 == 3 && total == -delta;
    case 3 => assert (j + 1) % 6 == 4 && total == -delta;
    case 4 => assert (j + 1) % 6 == 5 && total == -delta;
    case 5 => assert (j + 1) % 6 == 0 && total == 5 * delta;
  }

  /** n with the digits at places j and j + 1 swapped. */
  function SwapDigits(n: nat, j: nat): nat
  {
    ReplaceDigit(ReplaceDigit(n, j, Digit(n, j + 1)), j + 1, Digit(n, j))
  }

  /** Swapping the digits at places j and j + 1 adds both places' changes to the weighted sum. */
  lemma SwapSum(n: nat, j: nat)
    ensures WeightedSum(SwapDigits(n, j), 0) == WeightedSum(n, 0) + Change(j, Digit(n, j + 1), Digit(n, j)) + Change(j + 1, Digit(n, j), Digit(n, j + 1))
  {
    var a, b := Digit(n, j), Digit(n, j + 1);
    var once := ReplaceDigit(n, j, b);
    assert SwapDigits(n, j) == ReplaceDigit(once, j + 1, a);
    ReplaceDigitSum(n, j, b);
    DigitOfReplaceDigit(n, j, b, j + 1);
    ReplaceDigitSum(once, j + 1, a);
    var x, y, z := WeightedSum(n, 0), WeightedSum(once, 0), WeightedSum(SwapDigits(n, j), 0);
    assert y == x + Change(j, b, a) && z == y + Change(j + 1, a, b);
  }

  /** Every swap of two different adjacent digits changes the check digit. */
  lemma TranspositionDetected(n: nat, j: nat)
    requires Digit(n, j) != Digit(n, j + 1)
    ensures CheckDigit(SwapDigits(n, j)) != CheckDigit(n)
  {
    var a, b := Digit(n, j), Digit(n, j + 1);
    SwapSum(n, j);
    SwapNotMultipleOf11(j, a, b);
    ShiftDetected(SwapDigits(n, j), n, Change(j, b, a) + Change(j + 1, a, b));
  }
}
