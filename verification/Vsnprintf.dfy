/**
 rt_vsnprintf of rt-thread/src/kservice.c, as configured in this repository: with
 precisions, without the `#` prefix and without 64-bit numbers. Characters are
 bytes; arguments are 32-bit words, and `text` says what string a word points to.
 */
module Vsnprintf {
  import opened Bytes
  import opened Numerals

  type word = x: int | 0 <= x < 0x1_0000_0000

  const WORD := 0x1_0000_0000

  /** The characters the format language uses. */
  const HASH: byte := 35
  const PERCENT: byte := 37
  const STAR: byte := 42
  const DOT: byte := 46

  /* ----- what is printed, without any limit ----- */

  datatype Flags = Flags(left: bool, plus: bool, space: bool, zeropad: bool, sign: bool, large: bool)

  const NO_FLAGS := Flags(false, false, false, false, false, false)

  function Repeat(c: byte, n: int): (s: seq<byte>)
    ensures |s| == if n > 0 then n else 0
    ensures forall i :: 0 <= i < |s| ==> s[i] == c
  {
    seq(if n > 0 then n else 0, _ => c)
  }

  /** divide: only base 10 differs from base 16. */
  function Radix(base: nat): (r: nat)
    ensures r == 10 || r == 16
  {
    if base == 10 then 10 else 16
  }

  /** A word as a signed number. */
  function AsInt(w: word): (i: int)
    ensures -0x8000_0000 <= i < 0x8000_0000
  {
    if w < 0x8000_0000 then w else w - WORD
  }

  /** The sign character of a number field, if any. */
  function SignOf(num: int, f: Flags): (s: seq<byte>)
    ensures |s| <= 1
  {
    if !f.sign then [] else if num < 0 then [MINUS] else if f.plus then [PLUS] else if f.space then [SPACE] else []
  }

  /** The unsigned number whose digits are printed. */
  function Magnitude(num: int, f: Flags): (m: nat)
    requires -0x8000_0000 <= num < WORD
    ensures m < WORD
  {
    if num >= 0 then num else if f.sign then -num else num + WORD
  }

  function Larger(a: int, b: int): (r: int)
    ensures r >= a && r >= b && (r == a || r == b)
  {
    if a < b then b else a
  }

  /** What comes before the digits: the sign, and the padding on its side of it. */
  function Lead(sign: seq<byte>, fill: int, f: Flags): (s: seq<byte>) {
    if f.left then sign
    else if f.zeropad then sign + Repeat(ZERO, fill)
    else Repeat(SPACE, fill) + sign
  }

  /** A number field: padding, sign and digits, of which there are none for precision 0. */
  function NumberField(num: int, base: nat, width: int, precision: int, f: Flags): (s: seq<byte>)
    requires -0x8000_0000 <= num < WORD
  {
    var digits := Digits(Magnitude(num, f), Radix(base), f.large);
    var sign := SignOf(num, f);
    var zeros := Repeat(ZERO, precision - |digits|);
    var shown := if precision == 0 then [] else digits;
    var fill := width - Larger(|digits|, precision) - |sign|;
    Lead(sign, fill, f) + zeros + shown + Repeat(SPACE, if f.left then fill else 0)
  }

  /** A number field is as long as asked for, and longer only where sign and digits
      need it, if and only if the precision is not 0. */
  lemma NumberFieldLength(num: int, base: nat, width: int, precision: int, f: Flags)
    requires -0x8000_0000 <= num < WORD
    ensures
      |NumberField(num, base, width, precision, f)| ==
      Larger(width, |SignOf(num, f)| + Larger(|Digits(Magnitude(num, f), Radix(base), f.large)|, precision))
      <==> precision != 0
  {
  }

  lemma Nested(a: seq<byte>, b: seq<byte>, c: seq<byte>, d: seq<byte>, e: seq<byte>, g: seq<byte>)
    ensures a + b + c + d + e + g == a + (b + ((c + d) + e + g))
  {
  }

  /** Spaces or zeros, of which zeros come behind the sign. */
  lemma FieldParts(num: int, base: nat, width: int, precision: int, f: Flags)
    returns (spaces: seq<byte>, zeros: seq<byte>, rest: seq<byte>)
    requires -0x8000_0000 <= num < WORD && precision != 0
    ensures forall i :: 0 <= i < |spaces| ==> spaces[i] == SPACE
    ensures forall i :: 0 <= i < |zeros| ==> zeros[i] == ZERO
    ensures rest == [] || rest[0] == SPACE
    ensures forall i :: 0 <= i < |rest| ==> rest[i] == SPACE
    ensures (f.left || f.zeropad ==> spaces == []) && (!f.left ==> rest == [])
    ensures NumberField(num, base, width, precision, f) ==
            spaces + (SignOf(num, f) + (zeros + Digits(Magnitude(num, f), Radix(base), f.large) + rest))
  {
    hide Digits, SignOf;
    var digits, sign := Digits(Magnitude(num, f), Radix(base), f.large), SignOf(num, f);
    var fill := width - Larger(|digits|, precision) - |sign|;
    var inner := Repeat(ZERO, precision - |digits|);
    spaces := if f.left || f.zeropad then [] else Repeat(SPACE, fill);
    zeros := (if !f.left && f.zeropad then Repeat(ZERO, fill) else []) + inner;
    rest := Repeat(SPACE, if f.left then fill else 0);
    var pad := if !f.left && f.zeropad then Repeat(ZERO, fill) else [];
    assert Lead(sign, fill, f) == spaces + sign + pad;
    Nested(spaces, sign, pad, inner, digits, rest);
  }

  /** A number field with a precision other than 0 reads as its argument: signed with the
      sign flag, as a 32-bit word without it. */
  lemma NumberFieldReads(num: int, base: nat, width: int, precision: int, f: Flags)
    requires -0x8000_0000 <= num < WORD && precision != 0
    ensures Reading(NumberField(num, base, width, precision, f), Radix(base)) ==
            if num < 0 && !f.sign then num + WORD else num
  {
    hide Digits, Reading, NumberField;
    var spaces, zeros, rest := FieldParts(num, base, width, precision, f);
    var digits := Digits(Magnitude(num, f), Radix(base), f.large);
    DigitsAreNumerals(Magnitude(num, f), Radix(base), f.large);
    DigitsDenote(Magnitude(num, f), Radix(base), f.large);
    SignedReading(SignOf(num, f), zeros, digits, rest, Radix(base));
    LeadingSpaces(spaces, SignOf(num, f) + (zeros + digits + rest), Radix(base));
  }

  /* ----- the sink: a position that runs on past the end of the buffer ----- */

  /** The destination with its end and the running position; `out` is all that has been put. */
  class Sink {
    const buf: array<byte>
    const size: nat
    var str: nat
    ghost var out: seq<byte>
    ghost const before: seq<byte>

    ghost predicate Valid()
      reads this, buf
    {
      && size <= buf.Length == |before| && str == |out|
      && (forall i :: 0 <= i < size && i < str ==> buf[i] == out[i])
      && (forall i :: 0 <= i < buf.Length && (i >= size || i >= str) ==> buf[i] == before[i])
    }

    constructor (b: array<byte>, n: nat)
      requires n <= b.Length
      ensures buf == b && size == n && Valid() && out == [] && before == b[..]
    {
      buf, size, str, out, before := b, n, 0, [], b[..];
    }

    /** `if (str < end) *str = c; ++str;` */
    method Put(c: byte)
      requires Valid()
      modifies this`str, this`out, buf
      ensures Valid() && out == old(out) + [c]
    {
      if str < size {
        buf[str] := c;
      }
      str := str + 1;
      out := out + [c];
    }

    /** `while (n-- > 0)` over Put. */
    method PutMany(c: byte, n: int)
      requires Valid()
      modifies this`str, this`out, buf
      ensures Valid() && out == old(out) + Repeat(c, n)
    {
      var left := n;
      while left > 0
        invariant left <= n && (n > 0 ==> left >= 0) && (n <= 0 ==> left == n)
        invariant Valid() && out == old(out) + Repeat(c, n - left)
      {
        Put(c);
        left := left - 1;
        assert Repeat(c, n - left) == Repeat(c, n - left - 1) + [c];
      }
      assert Repeat(c, n) == Repeat(c, n - left);
    }

    method PutAll(s: seq<byte>)
      requires Valid()
      modifies this`str, this`out, buf
      ensures Valid() && out == old(out) + s
    {
      var i := 0;
      while i < |s|
        invariant 0 <= i <= |s|
        invariant Valid() && out == old(out) + s[..i]
      {
        Put(s[i]);
        assert s[..i + 1] == s[..i] + [s[i]];
        i := i + 1;
      }
    }
  }

  /* ----- print_number ----- */

  /** The most a 32-bit number can be after `i` divisions by at least ten. */
  function Cap(i: nat): (n: nat) {
    if i == 0 then WORD else if i == 1 then 429496730 else if i == 2 then 42949674 else if i == 3 then 4294968
    else if i == 4 then 429497 else if i == 5 then 42950 else if i == 6 then 4296 else if i == 7 then 430
    else if i == 8 then 44 else if i == 9 then 5 else 1
  }

  lemma CapStep(n: nat, i: nat, radix: nat)
    requires n < Cap(i) && (radix == 10 || radix == 16)
    ensures n / radix < Cap(i + 1)
  {
  }

  lemma FrontOf(n: nat, radix: nat, large: bool)
    requires radix == 10 || radix == 16
    ensures Front(n, radix, large) == if n / radix == 0 then [] else Digits(n / radix, radix, large)
  {
    hide Digits;
  }

  /** `tmp[i++] = d` */
  method Store(tmp: array<byte>, i: nat, d: byte)
    requires i < tmp.Length
    modifies tmp
    ensures tmp[..i + 1] == old(tmp[..i]) + [d]
  {
    tmp[i] := d;
  }

  lemma CapStart()
    ensures Cap(0) == WORD && Cap(1) > 1
  {
  }

  lemma CapEnd(n: nat, i: nat)
    requires 0 < n < Cap(i)
    ensures i < 10
  {
  }

  lemma ZeroDigit(radix: nat, large: bool)
    requires radix == 10 || radix == 16
    ensures Reversed(Digits(0, radix, large)) == [ZERO]
  {
  }

  predicate IsDivision(n: nat, radix: nat, q: nat, r: nat)
    requires radix == 10 || radix == 16
  {
    q == n / radix && r == n % radix
  }

  /** divide: the quotient replaces the number, the remainder is returned. */
  method Divide(n: nat, radix: nat) returns (q: nat, r: nat)
    requires radix == 10 || radix == 16
    ensures IsDivision(n, radix, q, r) && r < 16
  {
    q, r := n / radix, n % radix;
  }

  /** One division takes the lowest digit. */
  lemma DigitTaken(n: nat, radix: nat, large: bool, tail: seq<byte>, q: nat, r: nat, i: nat)
    requires (radix == 10 || radix == 16) && 0 < n < Cap(i) && IsDivision(n, radix, q, r) && r < 16
    ensures i < 10 && q < n && q < Cap(i + 1)
    ensures Digits(n, radix, large) + tail ==
            if q == 0 then [DigitChar(r, large)] + tail else Digits(q, radix, large) + ([DigitChar(r, large)] + tail)
  {
    hide Digits, DigitChar, Cap, Front;
    CapEnd(n, i);
    CapStep(n, i, radix);
    SplitDigit(n, radix, large, tail);
    FrontOf(n, radix, large);
    assert [] + ([DigitChar(r, large)] + tail) == [DigitChar(r, large)] + tail;
  }

  /** The digits of a number into a buffer of sixteen, lowest first. */
  method TakeDigits(num: nat, radix: nat, large: bool, tmp: array<byte>) returns (i: nat)
    requires num < WORD && (radix == 10 || radix == 16) && tmp.Length >= 16
    modifies tmp
    ensures i <= 16 && tmp[..i] == Reversed(Digits(num, radix, large))
  {
    hide Digits, Reversed, DigitChar, Cap, IsDivision;
    CapStart();
    var n: nat := num;
    i := 0;
    ghost var tail: seq<byte> := [];
    ReversedEmpty();
    assert tmp[..0] == [];
    assert Digits(num, radix, large) + [] == Digits(num, radix, large);
    if n == 0 {
      ZeroDigit(radix, large);
      tmp[0] := ZERO;
      i := 1;
      assert tmp[..1] == [ZERO];
      return;
    }
    while n != 0
      invariant i <= 10 && n < Cap(i)
      invariant tmp[..i] == Reversed(tail)
      invariant Digits(num, radix, large) == if n == 0 then tail else Digits(n, radix, large) + tail
      decreases n
    {
      var q, r := Divide(n, radix);
      DigitTaken(n, radix, large, tail, q, r, i);
      var d := DigitChar(r, large);
      ReversedSnoc(tail, d);
      Store(tmp, i, d);
      tail := [d] + tail;
      i := i + 1;
      n := q;
    }
  }

  lemma RepeatClamped(c: byte, m: int, n: int)
    requires m == n || (m <= 0 && n <= 0)
    ensures Repeat(c, m) == Repeat(c, n)
  {
  }

  lemma Joined(a: seq<byte>, b: seq<byte>, c: seq<byte>, d: seq<byte>, e: seq<byte>)
    ensures a + b + c + d + e == a + (b + c + d + e)
  {
  }

  lemma NoRepeat(c: byte, n: int)
    ensures n <= 0 ==> Repeat(c, n) == []
  {
  }

  lemma LeadJoined(start: seq<byte>, sign: seq<byte>, zeros: seq<byte>, spaces: seq<byte>)
    ensures start + sign + zeros == start + (sign + zeros)
    ensures start + spaces + sign + [] == start + (spaces + sign)
  {
  }

  /** Padding and sign; the result is what is left of the width. */
  method PutLead(k: Sink, size0: int, sign: seq<byte>, f: Flags) returns (size: int)
    requires k.Valid() && |sign| <= 1
    modifies k`str, k`out, k.buf
    ensures k.Valid() && k.out == old(k.out) + Lead(sign, size0 - |sign|, f)
    ensures if f.left then size == size0 - |sign| else size <= 0
  {
    hide Repeat;
    size := size0;
    ghost var start := k.out;
    var zeropad := f.zeropad && !f.left;
    if !zeropad && !f.left {
      if |sign| > 0 && size > 0 { size := size - 1; }
      RepeatClamped(SPACE, size, size0 - |sign|);
      k.PutMany(SPACE, size);
      size := if size > 0 then -1 else size - 1;
    }
    ghost var padded := k.out;
    if |sign| > 0 {
      k.Put(sign[0]);
      size := size - 1;
    }
    assert k.out == padded + sign;
    if !f.left {
      NoRepeat(SPACE, size);
      k.PutMany(if zeropad then ZERO else SPACE, size);
      size := if size > 0 then -1 else size - 1;
    }
    LeadJoined(start, sign, Repeat(ZERO, size0 - |sign|), Repeat(SPACE, size0 - |sign|));
  }

  /** The digits from the end of the buffer to its start. */
  method PutDigits(k: Sink, tmp: array<byte>, n: nat, ghost digits: seq<byte>)
    requires k.Valid() && n <= tmp.Length && tmp != k.buf && tmp[..n] == Reversed(digits)
    modifies k`str, k`out, k.buf
    ensures k.Valid() && k.out == old(k.out) + digits
  {
    var i: nat := n;
    while i > 0
      invariant i <= n && tmp[..n] == Reversed(digits)
      invariant k.Valid() && k.out == old(k.out) + digits[..n - i]
    {
      i := i - 1;
      assert tmp[i] == tmp[..n][i] == digits[n - 1 - i];
      k.Put(tmp[i]);
      assert digits[..n - i] == digits[..n - i - 1] + [digits[n - 1 - i]];
    }
    assert digits[..n] == digits;
  }

  /** print_number */
  method PrintNumber(k: Sink, num: int, base: nat, s: int, precision0: int, f: Flags)
    requires k.Valid() && -0x8000_0000 <= num < WORD
    modifies k`str, k`out, k.buf
    ensures k.Valid() && k.out == old(k.out) + NumberField(num, base, s, precision0, f)
  {
    hide Digits, Reversed, SignOf, Magnitude, Repeat, Lead;
    var sign := SignOf(num, f);
    var tmp := new byte[16](_ => 0);
    var i := TakeDigits(Magnitude(num, f), Radix(base), f.large, tmp);
    ghost var digits := Digits(Magnitude(num, f), Radix(base), f.large);
    assert i == |digits|;
    var precision := Larger(i, precision0);
    ghost var start := k.out;
    var size := PutLead(k, s - precision, sign, f);
    ghost var lead := Lead(sign, s - precision - |sign|, f);
    RepeatClamped(ZERO, precision - i, precision0 - i);
    k.PutMany(ZERO, precision - i);
    ghost var zeros := Repeat(ZERO, precision0 - i);
    ghost var shown := if precision0 == 0 then [] else digits;
    if precision0 != 0 {
      PutDigits(k, tmp, i, digits);
    } else {
      assert k.out == start + lead + zeros + [];
    }
    RepeatClamped(SPACE, size, if f.left then s - precision - |sign| else 0);
    k.PutMany(SPACE, size);
    Joined(start, lead, zeros, shown, Repeat(SPACE, size));
  }

  /* ----- the format language ----- */

  /** `*fmt`, with the NUL behind the text. */
  function At(fmt: seq<byte>, p: nat): (c: byte) {
    if p < |fmt| then fmt[p] else 0
  }

  predicate IsFlag(c: byte) {
    c == MINUS || c == PLUS || c == SPACE || c == HASH || c == ZERO
  }

  predicate IsDigit(c: byte) {
    ZERO <= c < ZERO + 10
  }

  function WithFlag(f: Flags, c: byte): (r: Flags) {
    if c == MINUS then f.(left := true) else if c == PLUS then f.(plus := true)
    else if c == SPACE then f.(space := true) else if c == ZERO then f.(zeropad := true) else f
  }

  /** The flags from `p` on, and the position behind them. */
  function FlagsFrom(fmt: seq<byte>, p: nat, f: Flags): (r: (Flags, nat))
    requires p <= |fmt|
    ensures p <= r.1 <= |fmt|
    decreases |fmt| - p
  {
    if p < |fmt| && IsFlag(fmt[p]) then FlagsFrom(fmt, p + 1, WithFlag(f, fmt[p])) else (f, p)
  }

  /** skip_atoi: the number from `p` on, and the position behind it. */
  function NumberFrom(fmt: seq<byte>, p: nat, n: nat): (r: (nat, nat))
    requires p <= |fmt|
    ensures p <= r.1 <= |fmt|
    decreases |fmt| - p
  {
    if p < |fmt| && IsDigit(fmt[p]) then NumberFrom(fmt, p + 1, n * 10 + (fmt[p] - ZERO)) else (n, p)
  }

  lemma NextDigit(fmt: seq<byte>, p0: nat, p: nat)
    requires p0 <= p < |fmt| && IsDigit(fmt[p])
    ensures Value(fmt[p0..p + 1], 10) == Value(fmt[p0..p], 10) * 10 + (fmt[p] - ZERO)
  {
    assert fmt[p0..p + 1][..p - p0] == fmt[p0..p];
  }

  /** skip_atoi takes the longest run of decimal digits and gives its value. */
  lemma {:induction false} NumberFromValue(fmt: seq<byte>, p0: nat, p: nat)
    requires p0 <= p <= |fmt| && forall i :: p0 <= i < p ==> IsDigit(fmt[i])
    ensures
      var r := NumberFrom(fmt, p, Value(fmt[p0..p], 10));
      && p <= r.1 && r.0 == Value(fmt[p0..r.1], 10)
      && (forall i :: p0 <= i < r.1 ==> IsDigit(fmt[i]))
      && (r.1 < |fmt| ==> !IsDigit(fmt[r.1]))
    decreases |fmt| - p
  {
    hide Value;
    if p < |fmt| && IsDigit(fmt[p]) {
      NextDigit(fmt, p0, p);
      NumberFromValue(fmt, p0, p + 1);
    }
  }

  /** A parsed directive: `p` is at the conversion character, `k` at the next argument. */
  datatype Directive = Directive(flags: Flags, width: int, precision: int, qualifier: byte, p: nat, k: nat)

  function WidthOf(fmt: seq<byte>, args: nat -> word, d: Directive): (r: Directive)
    requires d.p <= |fmt|
    ensures d.p <= r.p <= |fmt|
  {
    if IsDigit(At(fmt, d.p)) then
      var (w, p) := NumberFrom(fmt, d.p, 0);
      d.(width := w, p := p)
    else if At(fmt, d.p) == STAR then
      var w := AsInt(args(d.k));
      d.(width := if w < 0 then -w else w, flags := if w < 0 then d.flags.(left := true) else d.flags,
         p := d.p + 1, k := d.k + 1)
    else d
  }

  function PrecisionOf(fmt: seq<byte>, args: nat -> word, d: Directive): (r: Directive)
    requires d.p <= |fmt|
    ensures d.p <= r.p <= |fmt|
  {
    if At(fmt, d.p) != DOT then d
    else if IsDigit(At(fmt, d.p + 1)) then
      var (n, p) := NumberFrom(fmt, d.p + 1, 0);
      d.(precision := n, p := p)
    else if At(fmt, d.p + 1) == STAR then
      d.(precision := Larger(AsInt(args(d.k)), 0), p := d.p + 2, k := d.k + 1)
    else d.(precision := 0, p := d.p + 1)
  }

  function QualifierOf(fmt: seq<byte>, d: Directive): (r: Directive)
    requires d.p <= |fmt|
    ensures d.p <= r.p <= |fmt|
  {
    var c := At(fmt, d.p);
    if c == 104 || c == 108 then d.(qualifier := c, p := d.p + 1) else d
  }

  /** The directive that starts with the `%` at `p`. */
  function DirectiveAt(fmt: seq<byte>, p: nat, args: nat -> word, k: nat): (d: Directive)
    requires p < |fmt|
    ensures p < d.p <= |fmt|
  {
    var (f, q) := FlagsFrom(fmt, p + 1, NO_FLAGS);
    QualifierOf(fmt, PrecisionOf(fmt, args, WidthOf(fmt, args, Directive(f, -1, -1, 0, q, k))))
  }

  const NULL_TEXT: seq<byte> := [40, 78, 85, 76, 76, 41]

  /** The string an argument points to. */
  function StringAt(w: word, text: word -> seq<byte>): (s: seq<byte>) {
    if w == 0 then NULL_TEXT else text(w)
  }

  /** Text in a field of a given width. */
  function Padded(s: seq<byte>, width: int, left: bool): (r: seq<byte>) {
    if left then s + Repeat(SPACE, width - |s|) else Repeat(SPACE, width - |s|) + s
  }

  /** The argument of an integer conversion: an `h` one is cut to 16 bits. */
  function IntegerOf(w: word, qualifier: byte, sign: bool): (n: int)
    ensures -0x8000_0000 <= n < 0x8000_0000
  {
    if qualifier == 104 then
      var h := w % 0x1_0000;
      if sign && h >= 0x8000 then h - 0x1_0000 else h
    else AsInt(w)
  }

  /** Conversions that print an integer, with their base and flags. */
  function IntegerConversion(c: byte, f: Flags): (r: (bool, nat, Flags)) {
    if c == 111 then (true, 8, f)
    else if c == 88 then (true, 16, f.(large := true))
    else if c == 120 then (true, 16, f)
    else if c == 100 || c == 105 then (true, 10, f.(sign := true))
    else if c == 117 then (true, 10, f)
    else (false, 0, f)
  }

  /** The part of a string that a precision admits. */
  function Cut(s: seq<byte>, precision: int): (r: seq<byte>) {
    if 0 < precision < |s| then s[..precision] else s
  }

  /** What a directive prints, and the next argument. */
  function Field(fmt: seq<byte>, d: Directive, args: nat -> word, text: word -> seq<byte>): (r: (seq<byte>, nat))
    requires d.p <= |fmt|
  {
    var c := At(fmt, d.p);
    var (integer, base, f) := IntegerConversion(c, d.flags);
    if c == 99 then (Padded([args(d.k) % 256], d.width, d.flags.left), d.k + 1)
    else if c == 115 then (Padded(Cut(StringAt(args(d.k), text), d.precision), d.width, d.flags.left), d.k + 1)
    else if c == 112 then
      var f := if d.width == -1 then d.flags.(zeropad := true) else d.flags;
      (NumberField(AsInt(args(d.k)), 16, if d.width == -1 then 8 else d.width, d.precision, f), d.k + 1)
    else if c == PERCENT then ([PERCENT], d.k)
    else if integer then
      (NumberField(IntegerOf(args(d.k), d.qualifier, f.sign), base, d.width, d.precision, f), d.k + 1)
    else if c != 0 then ([PERCENT, c], d.k)
    else ([PERCENT], d.k)
  }

  /** The position the loop goes on from: behind the conversion character, if there is one. */
  function Behind(fmt: seq<byte>, p: nat): (q: nat) {
    if p < |fmt| then p + 1 else p
  }

  /** The unlimited output from position `p` and argument `k` on. */
  function Formatted(fmt: seq<byte>, p: nat, args: nat -> word, k: nat, text: word -> seq<byte>): (s: seq<byte>)
    requires p <= |fmt|
    decreases |fmt| - p
  {
    if p == |fmt| then []
    else if fmt[p] != PERCENT then [fmt[p]] + Formatted(fmt, p + 1, args, k, text)
    else
      var d := DirectiveAt(fmt, p, args, k);
      var (s, k') := Field(fmt, d, args, text);
      s + Formatted(fmt, Behind(fmt, d.p), args, k', text)
  }

  /* ----- the formatter itself ----- */

  /** skip_atoi */
  method SkipAtoi(fmt: seq<byte>, p0: nat) returns (n: nat, p: nat)
    requires p0 <= |fmt|
    ensures (n, p) == NumberFrom(fmt, p0, 0)
  {
    n, p := 0, p0;
    while IsDigit(At(fmt, p))
      invariant p0 <= p <= |fmt| && NumberFrom(fmt, p, n) == NumberFrom(fmt, p0, 0)
      decreases |fmt| - p
    {
      n, p := n * 10 + (At(fmt, p) - ZERO), p + 1;
    }
  }

  /** The flag loop, which steps over the `%` first. */
  method ReadFlags(fmt: seq<byte>, p0: nat) returns (f: Flags, p: nat)
    requires p0 < |fmt|
    ensures (f, p) == FlagsFrom(fmt, p0 + 1, NO_FLAGS)
  {
    f, p := NO_FLAGS, p0 + 1;
    while IsFlag(At(fmt, p))
      invariant p0 < p <= |fmt| && FlagsFrom(fmt, p, f) == FlagsFrom(fmt, p0 + 1, NO_FLAGS)
      decreases |fmt| - p
    {
      f := WithFlag(f, At(fmt, p));
      p := p + 1;
    }
  }

  /** The field width, a number or the next argument; a negative one means left. */
  method ReadWidth(fmt: seq<byte>, args: nat -> word, d0: Directive) returns (d: Directive)
    requires d0.p <= |fmt|
    ensures d == WidthOf(fmt, args, d0)
  {
    hide NumberFrom;
    d := d0;
    if IsDigit(At(fmt, d.p)) {
      var w, q := SkipAtoi(fmt, d.p);
      d := d.(width := w, p := q);
    } else if At(fmt, d.p) == STAR {
      d := d.(p := d.p + 1, width := AsInt(args(d.k)), k := d.k + 1);
      if d.width < 0 {
        d := d.(width := -d.width, flags := d.flags.(left := true));
      }
    }
  }

  /** The precision behind a dot, a number or the next argument, and never negative. */
  method ReadPrecision(fmt: seq<byte>, args: nat -> word, d0: Directive) returns (d: Directive)
    requires d0.p <= |fmt| && d0.precision == -1
    ensures d == PrecisionOf(fmt, args, d0)
  {
    hide NumberFrom;
    d := d0;
    if At(fmt, d.p) == DOT {
      d := d.(p := d.p + 1);
      if IsDigit(At(fmt, d.p)) {
        var n, q := SkipAtoi(fmt, d.p);
        d := d.(precision := n, p := q);
      } else if At(fmt, d.p) == STAR {
        d := d.(p := d.p + 1, precision := AsInt(args(d.k)), k := d.k + 1);
      }
      if d.precision < 0 { d := d.(precision := 0); }
    }
  }

  /** Flags, width, precision and qualifier of a directive. */
  method ReadDirective(fmt: seq<byte>, p0: nat, args: nat -> word, k0: nat) returns (d: Directive)
    requires p0 < |fmt|
    ensures d == DirectiveAt(fmt, p0, args, k0)
  {
    var f, p := ReadFlags(fmt, p0);
    d := Directive(f, -1, -1, 0, p, k0);
    d := ReadWidth(fmt, args, d);
    assert d.precision == -1;
    d := ReadPrecision(fmt, args, d);
    var c := At(fmt, d.p);
    if c == 104 || c == 108 {
      d := d.(qualifier := c, p := d.p + 1);
    }
  }

  /** Text with its padding, on one side or the other. */
  method PutPadded(k: Sink, s: seq<byte>, width: int, left: bool)
    requires k.Valid()
    modifies k`str, k`out, k.buf
    ensures k.Valid() && k.out == old(k.out) + Padded(s, width, left)
  {
    hide Repeat;
    if !left { k.PutMany(SPACE, width - |s|); }
    k.PutAll(s);
    if left { k.PutMany(SPACE, width - |s|); }
    LeadJoined(old(k.out), s, Repeat(SPACE, width - |s|), Repeat(SPACE, width - |s|));
    assert old(k.out) + Repeat(SPACE, width - |s|) + s + [] == old(k.out) + Repeat(SPACE, width - |s|) + s;
  }

  /** One directive. */
  method PutField(k: Sink, fmt: seq<byte>, d: Directive, args: nat -> word, text: word -> seq<byte>) returns (next: nat)
    requires k.Valid() && d.p <= |fmt|
    modifies k`str, k`out, k.buf
    ensures k.Valid() && k.out == old(k.out) + Field(fmt, d, args, text).0 && next == Field(fmt, d, args, text).1
  {
    hide NumberField, Padded;
    var c := At(fmt, d.p);
    next := d.k + 1;
    if c == 99 {
      PutPadded(k, [args(d.k) % 256], d.width, d.flags.left);
    } else if c == 115 {
      PutPadded(k, Cut(StringAt(args(d.k), text), d.precision), d.width, d.flags.left);
    } else if c == 112 {
      if d.width == -1 {
        PrintNumber(k, AsInt(args(d.k)), 16, 8, d.precision, d.flags.(zeropad := true));
      } else {
        PrintNumber(k, AsInt(args(d.k)), 16, d.width, d.precision, d.flags);
      }
    } else if c == PERCENT {
      k.Put(PERCENT);
      next := d.k;
    } else {
      var (integer, base, f) := IntegerConversion(c, d.flags);
      if integer {
        PrintNumber(k, IntegerOf(args(d.k), d.qualifier, f.sign), base, d.width, d.precision, f);
      } else {
        k.Put(PERCENT);
        if c != 0 { k.Put(c); }
        assert old(k.out) + [PERCENT] + [c] == old(k.out) + [PERCENT, c];
        next := d.k;
      }
    }
  }

  /** The main loop. */
  method PutFormat(k: Sink, fmt: seq<byte>, args: nat -> word, text: word -> seq<byte>)
    requires k.Valid() && k.out == [] && 0 !in fmt
    modifies k`str, k`out, k.buf
    ensures k.Valid() && k.out == Formatted(fmt, 0, args, 0, text)
  {
    hide DirectiveAt, Field;
    var p: nat, a: nat := 0, 0;
    while p < |fmt|
      invariant p <= |fmt| && k.Valid()
      invariant k.out + Formatted(fmt, p, args, a, text) == Formatted(fmt, 0, args, 0, text)
    {
      ghost var done := k.out;
      if fmt[p] != PERCENT {
        Regroup(done, [fmt[p]], Formatted(fmt, p + 1, args, a, text));
        k.Put(fmt[p]);
        p := p + 1;
      } else {
        var d := ReadDirective(fmt, p, args, a);
        ghost var (s, a') := Field(fmt, d, args, text);
        Regroup(done, s, Formatted(fmt, Behind(fmt, d.p), args, a', text));
        a := PutField(k, fmt, d, args, text);
        p := Behind(fmt, d.p);
      }
    }
  }

  /**
   rt_vsnprintf. The result is the length of the unlimited output, whatever the
   size; the buffer holds as much of that output as fits before its NUL, and
   nothing is written at or behind `size`.
   */
  method VsnPrintf(buf: array<byte>, size: nat, fmt: seq<byte>, args: nat -> word, text: word -> seq<byte>)
    returns (n: nat)
    requires size <= buf.Length && 0 !in fmt
    modifies buf
    ensures n == |Formatted(fmt, 0, args, 0, text)|
    ensures size > 0 ==>
      var kept := if n < size then n else size - 1;
      buf[..kept] == Formatted(fmt, 0, args, 0, text)[..kept] && buf[kept] == 0
    ensures forall i :: size <= i < buf.Length ==> buf[i] == old(buf[i])
  {
    hide Formatted;
    var k := new Sink(buf, size);
    ghost var all := Formatted(fmt, 0, args, 0, text);
    PutFormat(k, fmt, args, text);
    n := k.str;
    if size > 0 {
      if k.str < size {
        buf[k.str] := 0;
      } else {
        buf[size - 1] := 0;
      }
    }
  }
}
