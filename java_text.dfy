/**
 * The java.lang string operations the builder relies on: String.trim,
 * String.split on a single literal character, Integer.valueOf,
 * String.equalsIgnoreCase("false"), and the decimal rendering of an int.
 */
module JavaText {
  import opened Wrappers

  // ---------------------------------------------------------------------------
  // String.trim: removes every leading and trailing char at or below U+0020.

  predicate IsTrimmable(c: char) {
    c <= ' '
  }

  predicate AllTrimmable(s: string) {
    forall i :: 0 <= i < |s| ==> IsTrimmable(s[i])
  }

  /** The index of the first char that trim keeps, scanning forward from st. */
  function TrimFrom(s: string, st: nat): (r: nat)
    requires st <= |s|
    ensures st <= r <= |s|
    decreases |s| - st
  {
    if st < |s| && IsTrimmable(s[st]) then TrimFrom(s, st + 1) else st
  }

  /** The end of the text that trim keeps, scanning backward from len. */
  function TrimTo(s: string, st: nat, len: nat): (r: nat)
    requires st <= len <= |s|
    ensures st <= r <= len
  {
    if st < len && IsTrimmable(s[len - 1]) then TrimTo(s, st, len - 1) else len
  }

  /** String.trim(): the text between the two scans. */
  function Trim(s: string): string {
    var st := TrimFrom(s, 0);
    s[st..TrimTo(s, st, |s|)]
  }

  lemma {:induction false} TrimFromSkipsBlanks(s: string, st: nat)
    requires st <= |s|
    ensures var r := TrimFrom(s, st);
      (forall i :: st <= i < r ==> IsTrimmable(s[i])) && (r == |s| || !IsTrimmable(s[r]))
    decreases |s| - st
  {
    if st < |s| && IsTrimmable(s[st]) {
      TrimFromSkipsBlanks(s, st + 1);
    }
  }

  lemma {:induction false} TrimToSkipsBlanks(s: string, st: nat, len: nat)
    requires st <= len <= |s|
    ensures var r := TrimTo(s, st, len);
      (forall i :: r <= i < len ==> IsTrimmable(s[i])) && (r == st || !IsTrimmable(s[r - 1]))
  {
    if st < len && IsTrimmable(s[len - 1]) {
      TrimToSkipsBlanks(s, st, len - 1);
    }
  }

  /** Trim removes exactly the blanks at both ends: the result is empty exactly
    * when every char is a blank, and otherwise starts and ends with a non-blank
    * char, with only blanks cut off before and after it. */
  lemma TrimSpec(s: string)
    ensures Trim(s) == [] <==> AllTrimmable(s)
    ensures Trim(s) != [] ==> !IsTrimmable(Trim(s)[0]) && !IsTrimmable(Trim(s)[|Trim(s)| - 1])
    ensures exists st, en ::
      && 0 <= st <= en <= |s| && Trim(s) == s[st..en]
      && (forall i :: 0 <= i < st ==> IsTrimmable(s[i]))
      && (forall i :: en <= i < |s| ==> IsTrimmable(s[i]))
  {
    var st := TrimFrom(s, 0);
    var en := TrimTo(s, st, |s|);
    TrimFromSkipsBlanks(s, 0);
    TrimToSkipsBlanks(s, st, |s|);
    assert Trim(s) == s[st..en];
    if Trim(s) != [] {
      assert Trim(s)[0] == s[st];
    }
  }

  /** A text that has no blank at either end is its own trim. */
  lemma TrimOfTrimmed(s: string)
    requires s == [] || (!IsTrimmable(s[0]) && !IsTrimmable(s[|s| - 1]))
    ensures Trim(s) == s
  {
    var st := TrimFrom(s, 0);
    assert st == 0;
    assert TrimTo(s, st, |s|) == |s|;
  }

  /** Trimming twice is trimming once. */
  lemma TrimIdempotent(s: string)
    ensures Trim(Trim(s)) == Trim(s)
  {
    TrimSpec(s);
    TrimOfTrimmed(Trim(s));
  }

  // ---------------------------------------------------------------------------
  // String.split(sep) for a one-character separator that is not a regex
  // metacharacter (here "\\>"): with no occurrence the whole string is the only
  // part; otherwise the parts between occurrences, trailing empty parts dropped.

  /** The parts of s between occurrences of sep, always at least one. */
  function RawSplit(s: string, sep: char): (parts: seq<string>)
    ensures |parts| >= 1
  {
    if s == [] then [""]
    else
      var rest := RawSplit(s[1..], sep);
      if s[0] == sep then [""] + rest
      else [[s[0]] + rest[0]] + rest[1..]
  }

  /** Joins parts with sep between consecutive ones: the inverse of RawSplit. */
  function JoinWith(parts: seq<string>, sep: char): string
    requires |parts| >= 1
  {
    if |parts| == 1 then parts[0] else parts[0] + [sep] + JoinWith(parts[1..], sep)
  }

  function DropTrailingEmpty(parts: seq<string>): (r: seq<string>)
    ensures |r| <= |parts| && r == parts[..|r|]
    ensures r == [] || r[|r| - 1] != ""
    ensures forall i :: |r| <= i < |parts| ==> parts[i] == ""
  {
    if parts == [] || parts[|parts| - 1] != "" then parts
    else DropTrailingEmpty(parts[..|parts| - 1])
  }

  /** String.split with a single-character separator and no limit. */
  function JavaSplit(s: string, sep: char): seq<string> {
    if sep !in s then [s] else DropTrailingEmpty(RawSplit(s, sep))
  }

  lemma {:induction false} SplitJoinRoundTrip(s: string, sep: char)
    ensures JoinWith(RawSplit(s, sep), sep) == s
    ensures forall i :: 0 <= i < |RawSplit(s, sep)| ==> sep !in RawSplit(s, sep)[i]
  {
    if s != [] {
      var rest := RawSplit(s[1..], sep);
      SplitJoinRoundTrip(s[1..], sep);
      if s[0] != sep {
        var parts := RawSplit(s, sep);
        assert parts[1..] == rest[1..];
        if |rest| > 1 {
          assert rest[1..][1..] == rest[2..];
        }
      } else {
        assert RawSplit(s, sep)[1..] == rest;
      }
    }
  }

  /** The text before the first sep (all of s when sep does not occur). */
  function FirstPart(s: string, sep: char): (r: string)
    ensures sep !in r
    ensures r <= s
  {
    if s == [] || s[0] == sep then "" else [s[0]] + FirstPart(s[1..], sep)
  }

  /** The text after the first sep (empty when sep does not occur). */
  function AfterFirst(s: string, sep: char): string {
    if s == [] then "" else if s[0] == sep then s[1..] else AfterFirst(s[1..], sep)
  }

  /** The text between the first and the second sep. */
  function SecondPart(s: string, sep: char): string {
    FirstPart(AfterFirst(s, sep), sep)
  }

  lemma {:induction false} RawSplitShape(s: string, sep: char)
    ensures RawSplit(s, sep)[0] == FirstPart(s, sep)
    ensures sep !in s ==> RawSplit(s, sep) == [s]
    ensures sep in s ==> |RawSplit(s, sep)| >= 2 && RawSplit(s, sep)[1..] == RawSplit(AfterFirst(s, sep), sep)
  {
    if s != [] {
      RawSplitShape(s[1..], sep);
      if s[0] != sep {
        assert s == [s[0]] + s[1..];
        var rest := RawSplit(s[1..], sep);
        if sep in s {
          assert sep in s[1..];
          assert RawSplit(s, sep)[1..] == rest[1..];
        }
      }
    }
  }

  /**
   * What the builder reads from a split: the element at index 0 exists exactly
   * when the string does not consist of separators only, and is then the text
   * before the first separator; an element at index 1 that is not empty is the
   * text between the first and the second separator, and when no element at
   * index 1 exists that text is empty.
   */
  lemma JavaSplitParts(s: string, sep: char)
    ensures JavaSplit(s, sep) != [] ==> JavaSplit(s, sep)[0] == FirstPart(s, sep)
    ensures JavaSplit(s, sep) == [] ==> FirstPart(s, sep) == "" && s != ""
    ensures |JavaSplit(s, sep)| > 1 ==> JavaSplit(s, sep)[1] == SecondPart(s, sep)
    ensures |JavaSplit(s, sep)| <= 1 ==> SecondPart(s, sep) == ""
  {
    RawSplitShape(s, sep);
    var raw := RawSplit(s, sep);
    if sep !in s {
      assert AfterFirst(s, sep) == "" by { AfterFirstWithoutSep(s, sep); }
    } else {
      RawSplitShape(AfterFirst(s, sep), sep);
      assert raw[1] == SecondPart(s, sep);
      var parts := DropTrailingEmpty(raw);
      if parts == [] {
        assert raw[0] == "";
      }
      if |parts| <= 1 {
        assert raw[1] == "";
      }
    }
  }

  lemma {:induction false} AfterFirstWithoutSep(s: string, sep: char)
    requires sep !in s
    ensures AfterFirst(s, sep) == ""
  {
    if s != [] {
      assert sep !in s[1..];
      AfterFirstWithoutSep(s[1..], sep);
    }
  }

  /** A string made only of separators splits into no parts at all. */
  lemma {:induction false} SplitOfSeparatorsOnly(s: string, sep: char)
    requires s != [] && forall i :: 0 <= i < |s| ==> s[i] == sep
    ensures JavaSplit(s, sep) == []
  {
    assert s[0] == sep;
    JavaSplitParts(s, sep);
    AllSeparatorsRaw(s, sep);
  }

  lemma {:induction false} AllSeparatorsRaw(s: string, sep: char)
    requires forall i :: 0 <= i < |s| ==> s[i] == sep
    ensures forall i :: 0 <= i < |RawSplit(s, sep)| ==> RawSplit(s, sep)[i] == ""
    ensures DropTrailingEmpty(RawSplit(s, sep)) == []
  {
    if s != [] {
      AllSeparatorsRaw(s[1..], sep);
      EmptyPartsDropAll(RawSplit(s, sep));
    } else {
      EmptyPartsDropAll(RawSplit(s, sep));
    }
  }

  lemma EmptyPartsDropAll(parts: seq<string>)
    requires forall i :: 0 <= i < |parts| ==> parts[i] == ""
    ensures DropTrailingEmpty(parts) == []
  {
  }

  // ---------------------------------------------------------------------------
  // Decimal digits, Integer.toString for non-negative values, Integer.valueOf.

  predicate IsDigit(c: char) {
    '0' <= c <= '9'
  }

  predicate AllDigits(s: string) {
    forall i :: 0 <= i < |s| ==> IsDigit(s[i])
  }

  function DigitValue(c: char): nat
    requires IsDigit(c)
  {
    c as int - '0' as int
  }

  function DigitChar(d: nat): (c: char)
    requires d < 10
    ensures IsDigit(c) && DigitValue(c) == d
  {
    ('0' as int + d) as char
  }

  /** The value of a string of decimal digits, most significant first. */
  function DecimalValue(s: string): nat
    requires AllDigits(s)
  {
    if s == [] then 0 else DecimalValue(s[..|s| - 1]) * 10 + DigitValue(s[|s| - 1])
  }

  /** The decimal rendering of n, as Java's `n + ""` writes it. */
  function NatToDecimal(n: nat): (s: string)
    ensures |s| >= 1 && AllDigits(s)
  {
    if n < 10 then [DigitChar(n)] else NatToDecimal(n / 10) + [DigitChar(n % 10)]
  }

  lemma {:induction false} DecimalRoundTrip(n: nat)
    ensures DecimalValue(NatToDecimal(n)) == n
  {
    if n >= 10 {
      var s := NatToDecimal(n);
      assert s[..|s| - 1] == NatToDecimal(n / 10);
      DecimalRoundTrip(n / 10);
    }
  }

  /** Distinct numbers have distinct renderings. */
  lemma NatToDecimalInjective(a: nat, b: nat)
    ensures NatToDecimal(a) == NatToDecimal(b) ==> a == b
  {
    DecimalRoundTrip(a);
    DecimalRoundTrip(b);
  }

  const MinInt: int := -0x8000_0000
  const MaxInt: int := 0x7FFF_FFFF

  /** The text after an optional leading sign. */
  function Unsigned(s: string): string {
    if |s| > 0 && (s[0] == '-' || s[0] == '+') then s[1..] else s
  }

  /**
   * Integer.valueOf(s): an optional sign, at least one digit, a 32-bit value.
   * A result is the value of the digits after the sign, negated exactly when
   * the sign is '-'.
   */
  function ParseInt(s: string): (r: Option<int>)
    ensures r.Some? ==> MinInt <= r.value <= MaxInt
    ensures r.Some? ==> |s| > 0 && (IsDigit(s[0]) || s[0] == '-' || s[0] == '+') && AllDigits(s[1..])
    ensures r.Some? ==>
      && |Unsigned(s)| > 0 && AllDigits(Unsigned(s))
      && DecimalValue(Unsigned(s)) == (if r.value < 0 then -r.value else r.value)
      && (r.value < 0 ==> s[0] == '-')
      && (r.value > 0 ==> s[0] != '-')
  {
    if |s| == 0 then None
    else
      var digits := Unsigned(s);
      if |digits| == 0 || !AllDigits(digits) then None
      else
        var magnitude: int := DecimalValue(digits);
        var v := if s[0] == '-' then -magnitude else magnitude;
        if MinInt <= v <= MaxInt then Some(v) else None
  }

  /**
   * The converse: an optional sign followed by a non-empty run of digits
   * parses exactly when its value fits in 32 bits, leading zeros and "-0"
   * included.
   */
  lemma ParseIntAccepts(sign: string, digits: string)
    requires sign == "" || sign == "+" || sign == "-"
    requires |digits| > 0 && AllDigits(digits)
    ensures var v: int := if sign == "-" then -(DecimalValue(digits) as int) else DecimalValue(digits);
      ParseInt(sign + digits) == (if MinInt <= v <= MaxInt then Some(v) else None)
  {
    var s := sign + digits;
    if sign == "" {
      assert s == digits && IsDigit(s[0]);
    } else {
      assert s[0] == sign[0] && s[1..] == digits;
    }
  }

  /** A '+' sign is accepted. */
  lemma ParseIntPlusSign()
    ensures ParseInt("+42") == Some(42)
  {
    assert DecimalValue("42") == 42 by {
      assert "42"[..1] == "4" && "4"[..0] == "";
    }
    ParseIntAccepts("+", "42");
    assert "+" + "42" == "+42";
  }

  /** Leading zeros are accepted and do not change the value. */
  lemma ParseIntLeadingZeros()
    ensures ParseInt("007") == Some(7)
  {
    assert DecimalValue("007") == 7 by {
      assert "007"[..2] == "00" && "00"[..1] == "0" && "0"[..0] == "";
    }
    ParseIntAccepts("", "007");
    assert "" + "007" == "007";
  }

  /** "-0" is zero; a sign alone, the empty text and inner blanks are rejected. */
  lemma ParseIntEdgeCases()
    ensures ParseInt("-0") == Some(0)
    ensures ParseInt("") == None && ParseInt("-") == None && ParseInt("4 2") == None
  {
    assert DecimalValue("0") == 0 by {
      assert "0"[..0] == "";
    }
    ParseIntAccepts("-", "0");
    assert "-" + "0" == "-0";
    assert !IsDigit(' ');
  }

  /** Integer.toString(n). */
  function IntToDecimal(n: int): string {
    if n < 0 then "-" + NatToDecimal(-n) else NatToDecimal(n)
  }

  /** Every 32-bit value survives rendering and parsing. */
  lemma ParseIntRoundTrip(n: int)
    requires MinInt <= n <= MaxInt
    ensures ParseInt(IntToDecimal(n)) == Some(n)
  {
    var s := IntToDecimal(n);
    if n < 0 {
      var digits := NatToDecimal(-n);
      DecimalRoundTrip(-n);
      assert s[0] == '-' && s[1..] == digits;
    } else {
      DecimalRoundTrip(n);
      assert IsDigit(s[0]);
    }
  }

  // ---------------------------------------------------------------------------
  // String.equalsIgnoreCase("false"). Java compares char by char after mapping
  // both sides to upper case (and back to lower case); among all chars, only the
  // ASCII letters and U+017F (long s, whose upper case is 'S') match a letter of
  // "false".

  predicate MatchesIgnoringCase(c: char, lower: char) {
    c == lower || c as int == lower as int - 32 || (lower == 's' && c as int == 0x17F)
  }

  predicate EqualsIgnoreCaseFalse(s: string) {
    |s| == 5 &&
    MatchesIgnoringCase(s[0], 'f') && MatchesIgnoringCase(s[1], 'a') &&
    MatchesIgnoringCase(s[2], 'l') && MatchesIgnoringCase(s[3], 's') &&
    MatchesIgnoringCase(s[4], 'e')
  }
}
