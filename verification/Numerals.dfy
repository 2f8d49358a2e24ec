/** Numerals as texts, for the printers and parsers of the firmware. */
module Numerals {
  import opened Bytes

  const ZERO: byte := 48

  function DigitChar(d: nat, large: bool): (c: byte)
    requires d < 16
  {
    if d < 10 then ZERO + d else if large then 65 + d - 10 else 97 + d - 10
  }

  function DigitOf(c: byte): (d: nat) {
    if c < 58 then (c as int - ZERO) % 16 else if c < 97 then (c - 65 + 10) as int % 16 else (c - 97 + 10) as int % 16
  }

  /** The digits of a number, highest first. */
  function Digits(n: nat, radix: nat, large: bool): (s: seq<byte>)
    requires radix == 10 || radix == 16
    ensures |s| >= 1
    decreases n
  {
    if n < radix then [DigitChar(n, large)] else Digits(n / radix, radix, large) + [DigitChar(n % radix, large)]
  }

  function Value(s: seq<byte>, radix: nat): (n: nat) {
    if s == [] then 0 else Value(s[..|s| - 1], radix) * radix + DigitOf(s[|s| - 1])
  }

  lemma DigitBack(d: nat, large: bool)
    requires d < 16
    ensures DigitOf(DigitChar(d, large)) == d
  {
  }

  /** The digits denote the number. */
  lemma {:induction false} DigitsDenote(n: nat, radix: nat, large: bool)
    requires radix == 10 || radix == 16
    ensures Value(Digits(n, radix, large), radix) == n
    decreases n
  {
    hide DigitChar, DigitOf;
    var s := Digits(n, radix, large);
    DigitBack(n % radix, large);
    if n >= radix {
      DigitsDenote(n / radix, radix, large);
      assert s[..|s| - 1] == Digits(n / radix, radix, large);
      if radix == 10 { assert n / 10 * 10 + n % 10 == n; } else { assert n / 16 * 16 + n % 16 == n; }
    } else {
      assert s[..0] == [];
      assert n % radix == n;
    }
  }

  /** The digits above the lowest. */
  function Front(n: nat, radix: nat, large: bool): (s: seq<byte>)
    requires radix == 10 || radix == 16
  {
    if n < radix then [] else Digits(n / radix, radix, large)
  }

  lemma LowestDigit(n: nat, radix: nat, large: bool)
    requires radix == 10 || radix == 16
    ensures Digits(n, radix, large) == Front(n, radix, large) + [DigitChar(n % radix, large)]
  {
    hide DigitChar;
  }

  /** The lowest digit moves to the digits already taken. */
  lemma SplitDigit(n: nat, radix: nat, large: bool, tail: seq<byte>)
    requires radix == 10 || radix == 16
    ensures Digits(n, radix, large) + tail == Front(n, radix, large) + ([DigitChar(n % radix, large)] + tail)
  {
    hide Digits, DigitChar, Front;
    LowestDigit(n, radix, large);
  }

  /** Decimal digits are the characters from '0' to '9'. */
  lemma {:induction false} DecimalChars(n: nat)
    ensures forall i :: 0 <= i < |Digits(n, 10, false)| ==> ZERO <= Digits(n, 10, false)[i] < ZERO + 10
    decreases n
  {
    if n >= 10 { DecimalChars(n / 10); }
  }

  function Reversed(s: seq<byte>): (r: seq<byte>)
    ensures |r| == |s|
  {
    seq(|s|, i requires 0 <= i < |s| => s[|s| - 1 - i])
  }

  lemma ReversedTwice(s: seq<byte>)
    ensures Reversed(Reversed(s)) == s
  {
  }

  lemma ReversedSnoc(s: seq<byte>, c: byte)
    ensures Reversed([c] + s) == Reversed(s) + [c]
  {
  }

  lemma ReversedEmpty()
    ensures Reversed([]) == []
  {
  }

  /* ----- reading ----- */

  const SPACE: byte := 32
  const PLUS: byte := 43
  const MINUS: byte := 45

  /** A decimal or hexadecimal digit. */
  predicate IsNumeral(c: byte) {
    ZERO <= c < ZERO + 10 || 65 <= c < 71 || 97 <= c < 103
  }

  /** How many characters from the start on satisfy the test of the digit reader. */
  function NumeralRun(s: seq<byte>): (n: nat)
    ensures n <= |s| && (n < |s| ==> !IsNumeral(s[n]))
    ensures forall i :: 0 <= i < n ==> IsNumeral(s[i])
  {
    if s == [] || !IsNumeral(s[0]) then 0 else 1 + NumeralRun(s[1..])
  }

  /** A text read as a number: spaces, a sign, digits, and no more. */
  function Reading(s: seq<byte>, radix: nat): (n: int) {
    if s != [] && s[0] == SPACE then Reading(s[1..], radix)
    else if s != [] && s[0] == MINUS then 0 - Value(s[1..][..NumeralRun(s[1..])], radix)
    else if s != [] && s[0] == PLUS then Value(s[1..][..NumeralRun(s[1..])], radix)
    else Value(s[..NumeralRun(s)], radix)
  }

  /** Leading zeros do not count. */
  lemma {:induction false} LeadingZeros(zeros: seq<byte>, digits: seq<byte>, radix: nat)
    requires forall i :: 0 <= i < |zeros| ==> zeros[i] == ZERO
    ensures Value(zeros + digits, radix) == Value(digits, radix)
    decreases |digits|, |zeros|
  {
    var s := zeros + digits;
    if digits != [] {
      LeadingZeros(zeros, digits[..|digits| - 1], radix);
      assert s[..|s| - 1] == zeros + digits[..|digits| - 1];
    } else if zeros != [] {
      LeadingZeros(zeros[..|zeros| - 1], [], radix);
      assert s == zeros && zeros[..|zeros| - 1] + [] == zeros[..|zeros| - 1];
    }
  }

  lemma DigitIsNumeral(d: nat, large: bool)
    requires d < 16
    ensures IsNumeral(DigitChar(d, large))
  {
  }

  lemma {:induction false} DigitsAreNumerals(n: nat, radix: nat, large: bool)
    requires radix == 10 || radix == 16
    ensures forall i :: 0 <= i < |Digits(n, radix, large)| ==> IsNumeral(Digits(n, radix, large)[i])
    decreases n
  {
    hide IsNumeral, DigitChar;
    DigitIsNumeral(n % radix, large);
    if n >= radix { DigitsAreNumerals(n / radix, radix, large); } else { assert n % radix == n; }
  }

  /** The run of digits ends where the digits end. */
  lemma {:induction false} RunEnds(digits: seq<byte>, rest: seq<byte>)
    requires forall i :: 0 <= i < |digits| ==> IsNumeral(digits[i])
    requires rest == [] || !IsNumeral(rest[0])
    ensures NumeralRun(digits + rest) == |digits|
    decreases |digits|
  {
    var s := digits + rest;
    if digits != [] {
      RunEnds(digits[1..], rest);
      assert s[1..] == digits[1..] + rest;
    } else {
      assert s == rest;
    }
  }

  /** Spaces in front do not count. */
  lemma {:induction false} LeadingSpaces(spaces: seq<byte>, s: seq<byte>, radix: nat)
    requires forall i :: 0 <= i < |spaces| ==> spaces[i] == SPACE
    ensures Reading(spaces + s, radix) == Reading(s, radix)
    decreases |spaces|
  {
    if spaces == [] {
      assert spaces + s == s;
    } else {
      LeadingSpaces(spaces[1..], s, radix);
      assert (spaces + s)[1..] == spaces[1..] + s;
    }
  }

  /** A sign and zeros and digits, and something behind them, read as the signed value. */
  lemma SignedReading(sign: seq<byte>, zeros: seq<byte>, digits: seq<byte>, rest: seq<byte>, radix: nat)
    requires sign == [] || sign == [MINUS] || sign == [PLUS] || sign == [SPACE]
    requires forall i :: 0 <= i < |zeros| ==> zeros[i] == ZERO
    requires digits != [] && forall i :: 0 <= i < |digits| ==> IsNumeral(digits[i])
    requires rest == [] || rest[0] == SPACE
    ensures Reading(sign + (zeros + digits + rest), radix) ==
            if sign == [MINUS] then 0 - Value(digits, radix) else Value(digits, radix)
  {
    var run := zeros + digits;
    var t := run + rest;
    forall i | 0 <= i < |run| ensures IsNumeral(run[i]) {
    }
    RunEnds(run, rest);
    LeadingZeros(zeros, digits, radix);
    assert t[..|run|] == run;
    assert t[0] == run[0];
    assert Reading(t, radix) == Value(digits, radix);
    if sign == [] {
      assert sign + t == t;
    } else {
      assert (sign + t)[1..] == t;
    }
  }
}
