/**
 What the conversions of rt_vsnprintf print, stated on the text of the format and
 the text that comes out: which argument a directive reads back as, in which base
 and with which letters, how its flags and its width show, and what `%s`, `%c` and
 `%%` copy.
 */
module Conversions {
  import opened Bytes
  import opened Numerals
  import opened Vsnprintf

  const LOWER_C: byte := 99
  const LOWER_D: byte := 100
  const LOWER_H: byte := 104
  const LOWER_I: byte := 105
  const LOWER_L: byte := 108
  const LOWER_O: byte := 111
  const LOWER_P: byte := 112
  const LOWER_S: byte := 115
  const LOWER_U: byte := 117
  const LOWER_X: byte := 120
  const UPPER_X: byte := 88

  /** The parts of a directive: `%` at `p`, flags up to `a`, a width up to `b`, a precision
      up to `q`, a qualifier up to `e`, and the conversion character there. */
  datatype Spelling = Spelling(p: nat, a: nat, b: nat, q: nat, e: nat)

  predicate Spelled(fmt: seq<byte>, x: Spelling) {
    && x.p < x.a <= x.b <= x.q <= x.e < |fmt| && fmt[x.p] == PERCENT
    && (forall i :: x.p < i < x.a ==> IsFlag(fmt[i]))
    && (forall i :: x.a <= i < x.b ==> IsDigit(fmt[i])) && (x.a < x.b ==> fmt[x.a] != ZERO)
    && (x.b < x.q ==> fmt[x.b] == DOT && x.b + 1 < x.q) && (forall i :: x.b < i < x.q ==> IsDigit(fmt[i]))
    && (x.q < x.e ==> x.e == x.q + 1 && (fmt[x.q] == LOWER_H || fmt[x.q] == LOWER_L))
    && fmt[x.e] in {LOWER_C, LOWER_D, LOWER_I, LOWER_O, LOWER_P, LOWER_S, LOWER_U, LOWER_X, UPPER_X, PERCENT}
  }

  /** A flag character is given. */
  predicate Flag(fmt: seq<byte>, x: Spelling, c: byte)
    requires Spelled(fmt, x)
  {
    c in fmt[x.p + 1..x.a]
  }

  /** The width, -1 without one. */
  function Width(fmt: seq<byte>, x: Spelling): int
    requires Spelled(fmt, x)
  {
    if x.a == x.b then -1 else Value(fmt[x.a..x.b], 10)
  }

  /** The precision, -1 without one. */
  function Precision(fmt: seq<byte>, x: Spelling): int
    requires Spelled(fmt, x)
  {
    if x.b == x.q then -1 else Value(fmt[x.b + 1..x.q], 10)
  }

  predicate Short(fmt: seq<byte>, x: Spelling)
    requires Spelled(fmt, x)
  {
    x.q < x.e && fmt[x.q] == LOWER_H
  }

  /* ----- reading a directive ----- */

  function Joined(f: Flags, s: seq<byte>): Flags {
    f.(left := f.left || MINUS in s, plus := f.plus || PLUS in s, space := f.space || SPACE in s,
       zeropad := f.zeropad || ZERO in s)
  }

  lemma JoinedHead(f: Flags, c: byte, s: seq<byte>)
    requires IsFlag(c)
    ensures Joined(f, [c] + s) == Joined(WithFlag(f, c), s)
  {
    assert forall x: byte :: x in [c] + s <==> x == c || x in s;
  }

  lemma {:induction false} FlagsSpelled(fmt: seq<byte>, i: nat, a: nat, f: Flags)
    requires i <= a < |fmt| && !IsFlag(fmt[a])
    requires forall j :: i <= j < a ==> IsFlag(fmt[j])
    ensures FlagsFrom(fmt, i, f) == (Joined(f, fmt[i..a]), a)
    decreases a - i
  {
    assert fmt[a..a] == [] && Joined(f, []) == f;
    hide Joined, WithFlag;
    if i < a {
      assert fmt[i..a] == [fmt[i]] + fmt[i + 1..a];
      JoinedHead(f, fmt[i], fmt[i + 1..a]);
      FlagsSpelled(fmt, i + 1, a, WithFlag(f, fmt[i]));
    }
  }

  lemma NumberSpelled(fmt: seq<byte>, a: nat, b: nat)
    requires a < b < |fmt| && !IsDigit(fmt[b])
    requires forall i :: a <= i < b ==> IsDigit(fmt[i])
    ensures NumberFrom(fmt, a, 0) == (Value(fmt[a..b], 10), b)
  {
    hide NumberFrom;
    assert fmt[a..a] == [];
    NumberFromValue(fmt, a, a);
  }

  /** The parts as they are read. */
  lemma DirectiveSpelled(fmt: seq<byte>, x: Spelling, args: nat -> word, k: nat)
    requires Spelled(fmt, x)
    ensures
      DirectiveAt(fmt, x.p, args, k) ==
      Directive(Joined(NO_FLAGS, fmt[x.p + 1..x.a]), Width(fmt, x), Precision(fmt, x),
                if x.q < x.e then fmt[x.q] else 0, x.e, k)
  {
    hide Value, FlagsFrom, NumberFrom, Joined;
    assert !IsFlag(fmt[x.a]) && !IsDigit(fmt[x.b]) && !IsDigit(fmt[x.q]);
    FlagsSpelled(fmt, x.p + 1, x.a, NO_FLAGS);
    var d := Directive(Joined(NO_FLAGS, fmt[x.p + 1..x.a]), -1, -1, 0, x.a, k);
    if x.a < x.b { NumberSpelled(fmt, x.a, x.b); }
    var w := WidthOf(fmt, args, d);
    assert w == d.(width := Width(fmt, x), p := x.b);
    if x.b < x.q { NumberSpelled(fmt, x.b + 1, x.q); }
    var r := PrecisionOf(fmt, args, w);
    assert r == w.(precision := Precision(fmt, x), p := x.q);
  }

  /* ----- what is printed ----- */

  /** From the directive on, `s` is printed, and then what the rest of the format gives from argument `k'` on. */
  ghost predicate Prints(fmt: seq<byte>, x: Spelling, args: nat -> word, k: nat, k': nat, text: word -> seq<byte>,
                         s: seq<byte>)
    requires Spelled(fmt, x)
  {
    Formatted(fmt, x.p, args, k, text) == s + Formatted(fmt, x.e + 1, args, k', text)
  }

  lemma PrintsField(fmt: seq<byte>, x: Spelling, args: nat -> word, k: nat, text: word -> seq<byte>)
    requires Spelled(fmt, x)
    ensures
      var (s, k') := Field(fmt, DirectiveAt(fmt, x.p, args, k), args, text);
      Prints(fmt, x, args, k, k', text, s)
  {
    hide DirectiveAt, Field;
    DirectiveSpelled(fmt, x, args, k);
  }

  /** The number a signed conversion prints: the argument, or with `h` its lower half, signed. */
  function SignedValue(w: word, short: bool): int {
    if !short then AsInt(w) else if w % 0x1_0000 < 0x8000 then w % 0x1_0000 else w % 0x1_0000 - 0x1_0000
  }

  /** The number an unsigned conversion prints. */
  function UnsignedValue(w: word, short: bool): nat {
    if short then w % 0x1_0000 else w
  }

  /** Spaces around, and digits behind the sign. */
  lemma Placed(spaces: seq<byte>, sign: seq<byte>, zeros: seq<byte>, digits: seq<byte>, rest: seq<byte>)
    requires forall i :: 0 <= i < |spaces| ==> spaces[i] == SPACE
    requires forall i :: 0 <= i < |zeros| ==> zeros[i] == ZERO
    requires forall i :: 0 <= i < |rest| ==> rest[i] == SPACE
    requires digits != [] && forall i :: 0 <= i < |digits| ==> IsNumeral(digits[i])
    ensures
      var s := spaces + (sign + (zeros + digits + rest));
      && s != [] && (rest == [] ==> IsNumeral(s[|s| - 1]))
      && (spaces == [] ==> s[0] != SPACE || SPACE in sign)
      && (MINUS in s <==> MINUS in sign) && (PLUS in s <==> PLUS in sign)
  {
    var body := zeros + digits + rest;
    assert forall c :: c in body ==> c == ZERO || IsNumeral(c) || c == SPACE;
    assert body[0] == ZERO || body[0] == digits[0];
    var s := spaces + (sign + body);
    assert rest == [] ==> s[|s| - 1] == digits[|digits| - 1];
    assert spaces == [] ==> s[0] == if sign == [] then body[0] else sign[0];
  }

  /** Where the padding of a number field goes, and which sign it shows. */
  lemma FieldShape(num: int, base: nat, width: int, precision: int, f: Flags)
    requires -0x8000_0000 <= num < WORD && precision != 0
    ensures
      var s := NumberField(num, base, width, precision, f);
      && s != [] && |s| >= width && |s| >= precision
      && (!f.left ==> IsNumeral(s[|s| - 1]))
      && (f.left || f.zeropad ==> s[0] != SPACE || SPACE in SignOf(num, f))
      && (MINUS in s <==> MINUS in SignOf(num, f)) && (PLUS in s <==> PLUS in SignOf(num, f))
  {
    NumberFieldLength(num, base, width, precision, f);
    hide Digits, NumberField;
    var spaces, zeros, rest := FieldParts(num, base, width, precision, f);
    var digits, sign := Digits(Magnitude(num, f), Radix(base), f.large), SignOf(num, f);
    DigitsAreNumerals(Magnitude(num, f), Radix(base), f.large);
    Placed(spaces, sign, zeros, digits, rest);
  }

  /** Letters of one case only. */
  predicate OneCase(s: seq<byte>, large: bool) {
    forall i :: 0 <= i < |s| ==> if large then !(97 <= s[i] < 103) else !(65 <= s[i] < 71)
  }

  lemma {:induction false} DigitsOneCase(n: nat, radix: nat, large: bool)
    requires radix == 10 || radix == 16
    ensures OneCase(Digits(n, radix, large), large)
    decreases n
  {
    if n >= radix { DigitsOneCase(n / radix, radix, large); }
  }

  lemma FieldOneCase(num: int, base: nat, width: int, precision: int, f: Flags)
    requires -0x8000_0000 <= num < WORD && precision != 0
    ensures OneCase(NumberField(num, base, width, precision, f), f.large)
  {
    hide Digits, NumberField;
    var spaces, zeros, rest := FieldParts(num, base, width, precision, f);
    DigitsOneCase(Magnitude(num, f), Radix(base), f.large);
  }

  /**
   `%d` and `%i`, with any flags, width, precision other than 0 and qualifier, anywhere
   in a format: what is printed reads as the argument. It is as wide as asked for, with
   the padding on the side the flags say, and shows a `+` exactly where one is asked for.
   */
  lemma SignedConversion(fmt: seq<byte>, x: Spelling, args: nat -> word, k: nat, text: word -> seq<byte>)
    returns (s: seq<byte>)
    requires Spelled(fmt, x) && fmt[x.e] in {LOWER_D, LOWER_I} && Precision(fmt, x) != 0
    ensures Prints(fmt, x, args, k, k + 1, text, s)
    ensures Reading(s, 10) == SignedValue(args(k), Short(fmt, x))
    ensures s != [] && |s| >= Width(fmt, x) && |s| >= Precision(fmt, x)
    ensures !Flag(fmt, x, MINUS) ==> IsNumeral(s[|s| - 1])
    ensures Flag(fmt, x, MINUS) || Flag(fmt, x, ZERO) ==> s[0] != SPACE || Flag(fmt, x, SPACE)
    ensures MINUS in s <==> Reading(s, 10) < 0
    ensures PLUS in s <==> Reading(s, 10) >= 0 && Flag(fmt, x, PLUS)
  {
    hide NumberField, Reading, Formatted, Value;
    DirectiveSpelled(fmt, x, args, k);
    PrintsField(fmt, x, args, k, text);
    var f := Joined(NO_FLAGS, fmt[x.p + 1..x.a]).(sign := true);
    var num := SignedValue(args(k), Short(fmt, x));
    s := NumberField(num, 10, Width(fmt, x), Precision(fmt, x), f);
    NumberFieldReads(num, 10, Width(fmt, x), Precision(fmt, x), f);
    FieldShape(num, 10, Width(fmt, x), Precision(fmt, x), f);
  }

  /**
   `%u` in decimal, `%x` and `%X` in hexadecimal with letters of their case: what is
   printed reads as the argument, unsigned. `%o` prints hexadecimal like `%x`.
   */
  lemma UnsignedConversion(fmt: seq<byte>, x: Spelling, args: nat -> word, k: nat, text: word -> seq<byte>)
    returns (s: seq<byte>)
    requires Spelled(fmt, x) && fmt[x.e] in {LOWER_U, LOWER_X, UPPER_X, LOWER_O} && Precision(fmt, x) != 0
    ensures Prints(fmt, x, args, k, k + 1, text, s)
    ensures Reading(s, if fmt[x.e] == LOWER_U then 10 else 16) == UnsignedValue(args(k), Short(fmt, x))
    ensures OneCase(s, fmt[x.e] == UPPER_X)
    ensures s != [] && |s| >= Width(fmt, x) && |s| >= Precision(fmt, x)
    ensures !Flag(fmt, x, MINUS) ==> IsNumeral(s[|s| - 1])
    ensures Flag(fmt, x, MINUS) || Flag(fmt, x, ZERO) ==> s[0] != SPACE
    ensures MINUS !in s && PLUS !in s
  {
    hide NumberField, Reading, Formatted, Value, OneCase;
    DirectiveSpelled(fmt, x, args, k);
    PrintsField(fmt, x, args, k, text);
    var f := Joined(NO_FLAGS, fmt[x.p + 1..x.a]).(large := fmt[x.e] == UPPER_X);
    var base := if fmt[x.e] == LOWER_U then 10 else if fmt[x.e] == LOWER_O then 8 else 16;
    var num := IntegerOf(args(k), if x.q < x.e then fmt[x.q] else 0, false);
    s := NumberField(num, base, Width(fmt, x), Precision(fmt, x), f);
    NumberFieldReads(num, base, Width(fmt, x), Precision(fmt, x), f);
    FieldShape(num, base, Width(fmt, x), Precision(fmt, x), f);
    FieldOneCase(num, base, Width(fmt, x), Precision(fmt, x), f);
  }

  /** `%p`: the pointer in hexadecimal, by default with zeros to at least eight digits. */
  lemma PointerConversion(fmt: seq<byte>, x: Spelling, args: nat -> word, k: nat, text: word -> seq<byte>)
    returns (s: seq<byte>)
    requires Spelled(fmt, x) && fmt[x.e] == LOWER_P && Precision(fmt, x) != 0
    ensures Prints(fmt, x, args, k, k + 1, text, s)
    ensures Reading(s, 16) == args(k) && OneCase(s, false)
    ensures s != [] && |s| >= if x.a == x.b then 8 else Width(fmt, x)
    ensures x.a == x.b && !Flag(fmt, x, MINUS) ==> s[0] != SPACE && IsNumeral(s[|s| - 1])
  {
    hide NumberField, Reading, Formatted, Value, OneCase;
    DirectiveSpelled(fmt, x, args, k);
    PrintsField(fmt, x, args, k, text);
    var f := Joined(NO_FLAGS, fmt[x.p + 1..x.a]);
    var f' := if x.a == x.b then f.(zeropad := true) else f;
    var width := if x.a == x.b then 8 else Width(fmt, x);
    var num := AsInt(args(k));
    s := NumberField(num, 16, width, Precision(fmt, x), f');
    NumberFieldReads(num, 16, width, Precision(fmt, x), f');
    FieldShape(num, 16, width, Precision(fmt, x), f');
    FieldOneCase(num, 16, width, Precision(fmt, x), f');
  }

  /** `%s` copies the string, or the part of it a positive precision admits, padded with
      spaces on the side the flags say; a null pointer prints as (NULL). */
  lemma StringConversion(fmt: seq<byte>, x: Spelling, args: nat -> word, k: nat, text: word -> seq<byte>)
    returns (s: seq<byte>)
    requires Spelled(fmt, x) && fmt[x.e] == LOWER_S
    ensures Prints(fmt, x, args, k, k + 1, text, s)
    ensures
      var whole := if args(k) == 0 then [40, 78, 85, 76, 76, 41] else text(args(k));
      var shown := if 0 < Precision(fmt, x) < |whole| then whole[..Precision(fmt, x)] else whole;
      var pad := Repeat(SPACE, Width(fmt, x) - |shown|);
      s == if Flag(fmt, x, MINUS) then shown + pad else pad + shown
  {
    hide Formatted, Value;
    DirectiveSpelled(fmt, x, args, k);
    PrintsField(fmt, x, args, k, text);
    s := Padded(Cut(StringAt(args(k), text), Precision(fmt, x)), Width(fmt, x), Flag(fmt, x, MINUS));
  }

  /** `%c` copies the low byte of its argument, padded likewise. */
  lemma CharConversion(fmt: seq<byte>, x: Spelling, args: nat -> word, k: nat, text: word -> seq<byte>)
    returns (s: seq<byte>)
    requires Spelled(fmt, x) && fmt[x.e] == LOWER_C
    ensures Prints(fmt, x, args, k, k + 1, text, s)
    ensures
      var pad := Repeat(SPACE, Width(fmt, x) - 1);
      s == if Flag(fmt, x, MINUS) then [args(k) % 256] + pad else pad + [args(k) % 256]
  {
    hide Formatted, Value;
    DirectiveSpelled(fmt, x, args, k);
    PrintsField(fmt, x, args, k, text);
    s := Padded([args(k) % 256], Width(fmt, x), Flag(fmt, x, MINUS));
  }

  /** `%%` prints one percent sign and takes no argument. */
  lemma PercentConversion(fmt: seq<byte>, x: Spelling, args: nat -> word, k: nat, text: word -> seq<byte>)
    requires Spelled(fmt, x) && fmt[x.e] == PERCENT
    ensures Prints(fmt, x, args, k, k, text, [PERCENT])
  {
    hide Formatted, Value;
    DirectiveSpelled(fmt, x, args, k);
    PrintsField(fmt, x, args, k, text);
  }

  /** The plain `%d`, `%u`, `%x` and `%X`: the whole output is the number. */
  lemma PlainNumber(c: byte, args: nat -> word, text: word -> seq<byte>)
    requires c in {LOWER_D, LOWER_U, LOWER_X, UPPER_X}
    ensures
      var s := Formatted([PERCENT, c], 0, args, 0, text);
      && (c == LOWER_D ==> Reading(s, 10) == AsInt(args(0)))
      && (c == LOWER_U ==> Reading(s, 10) == args(0))
      && (c == LOWER_X || c == UPPER_X ==> Reading(s, 16) == args(0) && OneCase(s, c == UPPER_X))
  {
    var fmt, x := [PERCENT, c], Spelling(0, 1, 1, 1, 1);
    hide Reading, OneCase;
    var s;
    if c == LOWER_D {
      s := SignedConversion(fmt, x, args, 0, text);
    } else {
      s := UnsignedConversion(fmt, x, args, 0, text);
    }
    assert Formatted(fmt, 2, args, 1, text) == [];
    assert s + [] == s;
  }

  /** `%*d` takes its width from the argument before the number; a negative one pads on the right. */
  lemma StarWidth(args: nat -> word, text: word -> seq<byte>)
    ensures
      var s, width := Formatted([PERCENT, STAR, LOWER_D], 0, args, 0, text), AsInt(args(0));
      && s != [] && Reading(s, 10) == AsInt(args(1)) && |s| >= width && |s| >= -width
      && if width < 0 then s[0] != SPACE else IsNumeral(s[|s| - 1])
  {
    hide Reading, NumberField;
    var fmt, w, num := [PERCENT, STAR, LOWER_D], AsInt(args(0)), AsInt(args(1));
    var f := NO_FLAGS.(left := w < 0, sign := true);
    var width := if w < 0 then -w else w;
    assert FlagsFrom(fmt, 1, NO_FLAGS) == (NO_FLAGS, 1);
    assert DirectiveAt(fmt, 0, args, 0) == Directive(f.(sign := false), width, -1, 0, 2, 1);
    var s := NumberField(num, 10, width, -1, f);
    NumberFieldReads(num, 10, width, -1, f);
    FieldShape(num, 10, width, -1, f);
    assert Formatted(fmt, 0, args, 0, text) == s + Formatted(fmt, 3, args, 2, text);
    assert s + [] == s;
  }
}
