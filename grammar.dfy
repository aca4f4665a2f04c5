/**
 * The two patterns the validating Rut constructor matches its inputs against:
 *
 *   numberRgx  ^([1-9]\d?(\.?\d{3}){0,2}|[1-9]\d{0,2}(\.?\d{3})?)$
 *   dvRgx      ^([0-9]|k|K)$
 *
 * The body pattern is stated as a predicate that follows the pattern's own
 * structure (a leading run of digits, then a bounded number of three-digit
 * groups, each optionally preceded by a '.'), and is proved equal to a
 * declarative description: a string of one to eight digits without a leading
 * zero, rendered with an independent choice of '.' before each trailing group.
 */
module Grammar {
  import opened Kotlin

  /** dvRgx: exactly one character, a digit, 'k' or 'K'. */
  predicate IsDvText(dv: string)
  {
    |dv| == 1 && (IsDigit(dv[0]) || dv[0] == 'k' || dv[0] == 'K')
  }

  /** `[1-9]\d{0,maxLen-1}`: the leading digits of a body. */
  predicate IsLead(s: string, maxLen: nat)
  {
    1 <= |s| <= maxLen && '1' <= s[0] <= '9' && AllDigits(s)
  }

  /** s matches a lead of at most `leadMax` digits followed by at most `groups` times `\.?\d{3}`. */
  predicate MatchesGroups(s: string, groups: nat, leadMax: nat)
    decreases groups
  {
    IsLead(s, leadMax) ||
    (groups > 0 && |s| >= 3 && AllDigits(s[|s| - 3..]) &&
      var rest := s[..|s| - 3];
      MatchesGroups(rest, groups - 1, leadMax) ||
      (|rest| > 0 && rest[|rest| - 1] == '.' && MatchesGroups(rest[..|rest| - 1], groups - 1, leadMax)))
  }

  /** numberRgx: the two alternatives of the pattern. */
  predicate IsBodyText(s: string)
  {
    MatchesGroups(s, 2, 2) || MatchesGroups(s, 1, 3)
  }

  // ----- The declarative description -----

  /** The digits of a body: one to eight of them, the first not '0'. */
  predicate IsBodyDigits(d: string)
  {
    1 <= |d| <= 8 && AllDigits(d) && '1' <= d[0] <= '9'
  }

  /** The number of places between trailing groups of three where a '.' may stand. */
  function Gaps(d: string): nat
  {
    if |d| == 0 then 0 else (|d| - 1) / 3
  }

  /** d written with a '.' before its k-th trailing group of three exactly when dots[k-1] holds. */
  function Dotted(d: string, dots: seq<bool>): (s: string)
    requires |dots| == Gaps(d)
    ensures |d| >= 1 ==> |s| >= 1 && s[0] == d[0] && s[|s| - 1] == d[|d| - 1]
  {
    if |d| <= 3 then d
    else Dotted(d[..|d| - 3], dots[1..]) + (if dots[0] then "." else "") + d[|d| - 3..]
  }

  ghost predicate IsDottedBody(s: string)
  {
    exists d, dots | IsBodyDigits(d) && |dots| == Gaps(d) :: s == Dotted(d, dots)
  }

  function NoDots(k: nat): (dots: seq<bool>)
  {
    seq(k, _ => false)
  }

  function AllDots(k: nat): (dots: seq<bool>)
  {
    seq(k, _ => true)
  }

  /** Every rendering of digits d that the pattern's bounds allow matches the pattern. */
  lemma {:induction false} DottedMatches(d: string, dots: seq<bool>, groups: nat, leadMax: nat)
    requires AllDigits(d) && |d| >= 1 && '1' <= d[0] <= '9'
    requires |dots| == Gaps(d) && |dots| <= groups && |d| - 3 * |dots| <= leadMax
    ensures MatchesGroups(Dotted(d, dots), groups, leadMax)
  {
    if |d| > 3 {
      var front, back := d[..|d| - 3], d[|d| - 3..];
      var s := Dotted(d, dots);
      var inner := Dotted(front, dots[1..]);
      DottedMatches(front, dots[1..], groups - 1, leadMax);
      assert s[|s| - 3..] == back;
      if dots[0] {
        assert s[..|s| - 3] == inner + ".";
        assert s[..|s| - 3][..|s| - 4] == inner;
      } else {
        assert s[..|s| - 3] == inner;
      }
    }
  }

  /** Every string the pattern matches is a rendering of some digits within its bounds. */
  lemma {:induction false} MatchesAreDotted(s: string, groups: nat, leadMax: nat) returns (d: string, dots: seq<bool>)
    requires leadMax <= 3 && MatchesGroups(s, groups, leadMax)
    ensures AllDigits(d) && |d| >= 1 && '1' <= d[0] <= '9'
    ensures |dots| == Gaps(d) && |dots| <= groups && |d| - 3 * |dots| <= leadMax
    ensures s == Dotted(d, dots)
    decreases groups
  {
    if IsLead(s, leadMax) {
      d, dots := s, [];
    } else {
      var inner, dot, back := SplitLastGroup(s, groups, leadMax);
      var d', dots' := MatchesAreDotted(inner, groups - 1, leadMax);
      DottedExtend(d', dots', back, dot);
      d, dots := d' + back, [dot] + dots';
    }
  }

  /** A match that is not a bare lead ends in a group of three, after an optional '.', and what precedes matches with one group fewer. */
  lemma SplitLastGroup(s: string, groups: nat, leadMax: nat) returns (inner: string, dot: bool, back: string)
    requires MatchesGroups(s, groups, leadMax) && !IsLead(s, leadMax)
    ensures groups > 0 && MatchesGroups(inner, groups - 1, leadMax)
    ensures AllDigits(back) && |back| == 3
    ensures s == inner + (if dot then "." else "") + back
  {
    var rest := s[..|s| - 3];
    back := s[|s| - 3..];
    assert s == rest + back;
    dot := !MatchesGroups(rest, groups - 1, leadMax);
    inner := if dot then rest[..|rest| - 1] else rest;
    assert rest == inner + (if dot then "." else "");
  }

  /** Rendering digits followed by one more group of three adds that group, after a '.' when `dot` holds. */
  lemma DottedExtend(d: string, dots: seq<bool>, back: string, dot: bool)
    requires AllDigits(d) && |d| >= 1 && |dots| == Gaps(d) && AllDigits(back) && |back| == 3
    ensures AllDigits(d + back) && (d + back)[0] == d[0]
    ensures |[dot] + dots| == Gaps(d + back)
    ensures Dotted(d + back, [dot] + dots) == Dotted(d, dots) + (if dot then "." else "") + back
  {
    var e, f := d + back, [dot] + dots;
    assert e[..|e| - 3] == d && e[|e| - 3..] == back;
    assert f[0] == dot && f[1..] == dots;
  }

  /** numberRgx accepts exactly the dotted renderings of one to eight digits without a leading zero. */
  lemma BodyTextIsDottedBody(s: string)
    ensures IsBodyText(s) <==> IsDottedBody(s)
  {
    if MatchesGroups(s, 2, 2) {
      var d, dots := MatchesAreDotted(s, 2, 2);
      assert IsBodyDigits(d);
    } else if MatchesGroups(s, 1, 3) {
      var d, dots := MatchesAreDotted(s, 1, 3);
      assert IsBodyDigits(d);
    }
    if IsDottedBody(s) {
      var d, dots :| IsBodyDigits(d) && |dots| == Gaps(d) && s == Dotted(d, dots);
      if |d| - 3 * |dots| <= 2 {
        DottedMatches(d, dots, 2, 2);
      } else {
        DottedMatches(d, dots, 1, 3);
      }
    }
  }

  /** Dropping the dots of a rendering gives back its digits. */
  lemma {:induction false} StripDotted(d: string, dots: seq<bool>)
    requires AllDigits(d) && |dots| == Gaps(d)
    ensures ReplaceAll(Dotted(d, dots), '.', "") == d
  {
    if |d| <= 3 {
      ReplaceAllAbsent(d, '.', "");
    } else {
      var front, back := d[..|d| - 3], d[|d| - 3..];
      var inner := Dotted(front, dots[1..]);
      var sep := if dots[0] then "." else "";
      assert Dotted(d, dots) == inner + sep + back;
      StripDotted(front, dots[1..]);
      ReplaceAllAppend(inner + sep, back, '.', "");
      ReplaceAllAppend(inner, sep, '.', "");
      ReplaceAllAbsent(back, '.', "");
      assert ReplaceAll(sep, '.', "") == "";
      assert front + back == d;
    }
  }

  /** A rendering holds only digits and dots. */
  lemma {:induction false} DottedChars(d: string, dots: seq<bool>)
    requires AllDigits(d) && |dots| == Gaps(d)
    ensures forall i :: 0 <= i < |Dotted(d, dots)| ==> IsDigit(Dotted(d, dots)[i]) || Dotted(d, dots)[i] == '.'
  {
    if |d| > 3 {
      var front, back := d[..|d| - 3], d[|d| - 3..];
      var inner := Dotted(front, dots[1..]);
      var sep := if dots[0] then "." else "";
      var s := Dotted(d, dots);
      assert s == inner + sep + back;
      DottedChars(front, dots[1..]);
      forall i | 0 <= i < |s|
        ensures IsDigit(s[i]) || s[i] == '.'
      {
        if i < |inner| {
          assert s[i] == inner[i];
        } else if i < |inner| + |sep| {
          assert s[i] == '.';
        } else {
          assert s[i] == back[i - |inner| - |sep|];
        }
      }
    }
  }

  /**
   * What the constructor relies on: a body that matches numberRgx has, once
   * its dots are dropped, one to eight digits and no leading zero; its first
   * and last characters are digits and every other character is a digit or '.'.
   */
  lemma BodyTextDigits(s: string)
    requires IsBodyText(s)
    ensures IsBodyDigits(ReplaceAll(s, '.', ""))
    ensures |s| >= 1 && '1' <= s[0] <= '9' && IsDigit(s[|s| - 1])
    ensures forall i :: 0 <= i < |s| ==> IsDigit(s[i]) || s[i] == '.'
  {
    var d, dots;
    if MatchesGroups(s, 2, 2) {
      d, dots := MatchesAreDotted(s, 2, 2);
    } else {
      d, dots := MatchesAreDotted(s, 1, 3);
    }
    StripDotted(d, dots);
    DottedChars(d, dots);
    assert ReplaceAll(s, '.', "") == d;
    assert |d| <= 8;

  }

  /**
   * The shape of every accepted body, stated so that it can be applied to
   * any string: only digits and '.', and its last three characters (all of
   * them, when shorter) are digits.
   */
  lemma BodyTextShape(s: string)
    ensures IsBodyText(s) ==> forall i :: 0 <= i < |s| ==> IsDigit(s[i]) || s[i] == '.'
    ensures IsBodyText(s) ==> forall i :: |s| - 3 <= i < |s| && 0 <= i ==> IsDigit(s[i])
  {
    if IsBodyText(s) {
      var d, dots;
      if MatchesGroups(s, 2, 2) {
        d, dots := MatchesAreDotted(s, 2, 2);
      } else {
        d, dots := MatchesAreDotted(s, 1, 3);
      }
      DottedChars(d, dots);
      if |d| > 3 {
        var inner := Dotted(d[..|d| - 3], dots[1..]) + (if dots[0] then "." else "");
        assert s == inner + d[|d| - 3..];
      }
    }
  }

  /** The dots are optional: the bare digits of every accepted body are accepted too. */
  lemma BodyDigitsAreBodyText(d: string)
    requires IsBodyDigits(d)
    ensures IsBodyText(d)
  {
    NoDotsIsPlain(d);
    BodyTextIsDottedBody(d);
  }

  lemma {:induction false} NoDotsIsPlain(d: string)
    ensures Dotted(d, NoDots(Gaps(d))) == d
  {
    if |d| > 3 {
      var front := d[..|d| - 3];
      assert NoDots(Gaps(d))[1..] == NoDots(Gaps(front));
      NoDotsIsPlain(front);
    }
  }

  /** Grouping by three with '.' everywhere is the rendering with every dot present. */
  lemma {:induction false} GroupIsAllDots(d: string)
    ensures Group(d, '.') == Dotted(d, AllDots(Gaps(d)))
  {
    if |d| > 3 {
      var front := d[..|d| - 3];
      assert AllDots(Gaps(d))[1..] == AllDots(Gaps(front));
      GroupIsAllDots(front);
    }
  }
}
