/**
 The comma-separated decimal lists of PS/at/at_wiota.c. Characters are bytes, and
 strings are given without their terminating NUL.
 */
module DecimalList {
  import opened Bytes
  import opened Numerals

  const COMMA: byte := 44

  function Pow(b: nat, n: nat): (r: nat) {
    if n == 0 then 1 else b * Pow(b, n - 1)
  }

  /* ----- printing ----- */

  /** The decimal numeral of a number. */
  function Decimal(n: nat): (s: seq<byte>)
    ensures |s| >= 1
    ensures forall i :: 0 <= i < |s| ==> ZERO <= s[i] < ZERO + 10
  {
    DecimalChars(n);
    Digits(n, 10, false)
  }

  /** The list with commas in between. */
  function Printed(xs: seq<byte>): (s: seq<byte>)
    ensures xs == [] <==> s == []
    ensures forall i :: 0 <= i < |s| ==> s[i] != 0
  {
    if xs == [] then []
    else if |xs| == 1 then Decimal(xs[0])
    else Decimal(xs[0]) + [COMMA] + Printed(xs[1..])
  }

  lemma {:induction false} PrintedAppend(xs: seq<byte>, x: byte)
    requires xs != []
    ensures Printed(xs + [x]) == Printed(xs) + [COMMA] + Decimal(x)
    decreases |xs|
  {
    hide Decimal;
    assert (xs + [x])[1..] == xs[1..] + [x];
    var d := Decimal(xs[0]) + [COMMA];
    if |xs| == 1 {
      assert Printed([x]) == Decimal(x);
      assert xs[1..] + [x] == [x];
    } else {
      PrintedAppend(xs[1..], x);
      assert d + (Printed(xs[1..]) + [COMMA] + Decimal(x)) == d + Printed(xs[1..]) + [COMMA] + Decimal(x);
    }
  }

  /** uc_str_reverse on the first `n` characters. */
  method StrReverse(str: array<byte>, n: nat)
    requires n <= str.Length
    modifies str
    ensures str[..n] == Reversed(old(str[..n]))
    ensures forall i :: n <= i < str.Length ==> str[i] == old(str[i])
  {
    var p, q := 0, n - 1;
    while q > p
      invariant 0 <= p && q == n - 1 - p && q >= p - 1
      invariant forall i :: 0 <= i < n ==> str[i] == if i < p || i > q then old(str[n - 1 - i]) else old(str[i])
      invariant forall i :: n <= i < str.Length ==> str[i] == old(str[i])
    {
      str[p], str[q] := str[q], str[p];
      p := p + 1;
      q := q - 1;
    }
    assert forall i :: 0 <= i < n ==> str[..n][i] == Reversed(old(str[..n]))[i];
  }

  /** rt_strncpy of a text without NUL. */
  method PutText(out: array<byte>, offset: nat, text: seq<byte>) returns (end: nat)
    requires offset + |text| <= out.Length
    modifies out
    ensures end == offset + |text| && out[..end] == old(out[..offset]) + text
    ensures forall k :: end <= k < out.Length ==> out[k] == old(out[k])
  {
    forall k | 0 <= k < |text| { out[offset + k] := text[k]; }
    end := offset + |text|;
  }

  /** The lowest digit moves to the digits already taken. */
  lemma DecimalSplit(n: nat, tail: seq<byte>)
    ensures Decimal(n) + tail == (if n < 10 then [] else Decimal(n / 10)) + ([ZERO + n % 10] + tail)
  {
    SplitDigit(n, 10, false, tail);
    hide Digits;
  }

  /** The loop of uc_itoa. */
  method DigitsUp(num: byte, str: array<byte>) returns (i: nat)
    requires str.Length >= 100
    modifies str
    ensures i <= 100 && str[..i] == Reversed(Decimal(num))
  {
    hide Decimal, Reversed;
    var n: nat, more := num, true;
    i := 0;
    ghost var tail: seq<byte> := [];
    ReversedEmpty();
    assert str[..0] == [];
    assert Decimal(num) + [] == Decimal(num);
    while more
      invariant i <= 3 && str[..i] == Reversed(tail)
      invariant Decimal(num) == if more then Decimal(n) + tail else tail
      invariant more ==> n < (if i == 0 then 256 else if i == 1 then 26 else if i == 2 then 3 else 0)
      decreases n + if more then 1 else 0
    {
      var d: byte := n % 10 + ZERO;
      DecimalSplit(n, tail);
      ReversedSnoc(tail, d);
      var end := PutText(str, i, [d]);
      tail := [d] + tail;
      i := i + 1;
      assert n < 10 ==> [] + tail == tail;
      n := n / 10;
      more := n > 0;
    }
  }

  /** uc_itoa for a byte: digits lowest first into a buffer, then turned around. */
  method Itoa(num: byte, str: array<byte>) returns (len: nat)
    requires str.Length >= 100
    modifies str
    ensures len <= 100 && str[..len] == Decimal(num)
  {
    hide Decimal, Reversed;
    len := DigitsUp(num, str);
    StrReverse(str, len);
    ReversedTwice(Decimal(num));
  }

  /** The text after `i` numbers, with the comma that announces the next one. */
  function SoFar(xs: seq<byte>, i: nat): (s: seq<byte>)
    requires i <= |xs|
  {
    if 0 < i < |xs| then Printed(xs[..i]) + [COMMA] else Printed(xs[..i])
  }

  lemma EmptySoFar(xs: seq<byte>)
    ensures SoFar(xs, 0) == []
  {
    assert xs[..0] == [];
  }

  /** A prefix of the list prints to no more than the list, with room for its comma. */
  lemma {:induction false} PrintedPrefix(xs: seq<byte>, k: nat)
    requires 1 <= k <= |xs|
    ensures |Printed(xs[..k])| + (if k < |xs| then 1 else 0) <= |Printed(xs)|
    decreases |xs|
  {
    if k == |xs| {
      assert xs[..k] == xs;
    } else {
      var init := xs[..|xs| - 1];
      PrintedPrefix(init, k);
      assert init[..k] == xs[..k];
      PrintedAppend(init, xs[|xs| - 1]);
      assert init + [xs[|xs| - 1]] == xs;
    }
  }

  lemma NextNumber(xs: seq<byte>, i: nat)
    requires i < |xs|
    ensures SoFar(xs, i + 1) == SoFar(xs, i) + Decimal(xs[i]) + (if i + 1 < |xs| then [COMMA] else [])
    ensures |SoFar(xs, i + 1)| <= |Printed(xs)|
  {
    PrintedPrefix(xs, i + 1);
    assert xs[..i + 1] == xs[..i] + [xs[i]];
    if i > 0 {
      PrintedAppend(xs[..i], xs[i]);
    } else {
      assert xs[..0] == [] && xs[..1] == [xs[0]];
    }
  }

  /** uc_array_to_string: the text appears at the start of a buffer that is large enough. */
  method ArrayToString(xs: seq<byte>, out: array<byte>) returns (ghost len: nat)
    requires |Printed(xs)| <= out.Length
    modifies out
    ensures len == |Printed(xs)| && out[..len] == Printed(xs)
    ensures forall i :: len <= i < out.Length ==> out[i] == old(out[i])
  {
    hide Decimal, Printed;
    var offset, i := 0, 0;
    EmptySoFar(xs);
    while i < |xs|
      invariant 0 <= i <= |xs| && 0 <= offset <= out.Length
      invariant out[..offset] == SoFar(xs, i)
      invariant forall k :: offset <= k < out.Length ==> out[k] == old(out[k])
    {
      NextNumber(xs, i);
      var str := new byte[100](_ => 0);
      var n := Itoa(xs[i], str);
      offset := PutText(out, offset, str[..n]);
      if i < |xs| - 1 {
        offset := PutText(out, offset, [COMMA]);
      }
      i := i + 1;
    }
    assert xs[..i] == xs;
    len := offset;
  }

  /* ----- parsing ----- */

  /** A character minus '0', stored in a byte. */
  function DigitValue(c: byte): (d: byte) {
    (c as int - ZERO) % 256
  }

  /** The number a field denotes, each character counted as its distance from '0'. */
  function Numeral(f: seq<byte>): (n: nat) {
    if f == [] then 0 else Numeral(f[..|f| - 1]) * 10 + DigitValue(f[|f| - 1])
  }

  lemma {:induction false} NumeralOfDecimal(n: nat)
    ensures Numeral(Decimal(n)) == n
  {
    if n >= 10 {
      NumeralOfDecimal(n / 10);
      var s := Decimal(n);
      assert s[..|s| - 1] == Decimal(n / 10);
    }
  }

  /** Fields as the parser cuts them: the character after a comma is never itself
      taken for a comma, and after a comma at the very end there is no field. */
  function Fields(s: seq<byte>, start: nat, end: nat): (fs: seq<seq<byte>>)
    requires start <= end <= |s|
    ensures |fs| >= 1
    decreases |s| - end
  {
    if end == |s| then [s[start..]]
    else if s[end] != COMMA then Fields(s, start, end + 1)
    else if end + 1 < |s| then [s[start..end]] + Fields(s, end + 1, end + 2)
    else [s[start..end]]
  }

  function Parsed(s: seq<byte>): (fs: seq<seq<byte>>) {
    if s == [] then [] else Fields(s, 0, 0)
  }

  /** The scan from `end` does not take the last character for a comma, after which
      the code steps over the NUL and runs past the text. */
  predicate Closed(s: seq<byte>, end: nat)
    requires end <= |s|
    decreases |s| - end
  {
    if end == |s| then true
    else if s[end] == COMMA then end + 1 < |s| && Closed(s, end + 2)
    else Closed(s, end + 1)
  }

  /** How many commas the text ends with. */
  function TrailingCommas(s: seq<byte>): (n: nat)
    ensures n <= |s|
  {
    if s == [] || s[|s| - 1] != COMMA then 0 else 1 + TrailingCommas(s[..|s| - 1])
  }

  /** Dropping characters in front keeps the commas at the end, as far as they reach. */
  lemma {:induction false} TrailingDrop(s: seq<byte>, k: nat)
    requires k <= |s|
    ensures TrailingCommas(s[k..]) == if TrailingCommas(s) <= |s| - k then TrailingCommas(s) else |s| - k
    decreases |s|
  {
    if k < |s| && s[|s| - 1] == COMMA {
      TrailingDrop(s[..|s| - 1], k);
      assert s[k..][..|s| - k - 1] == s[..|s| - 1][k..];
    }
  }

  lemma {:induction false} TrailingAll(s: seq<byte>, i: nat)
    requires |s| - TrailingCommas(s) <= i < |s|
    ensures s[i] == COMMA
    decreases |s|
  {
    if i < |s| - 1 { TrailingAll(s[..|s| - 1], i); }
  }

  lemma {:induction false} TrailingStop(s: seq<byte>)
    requires TrailingCommas(s) < |s|
    ensures s[|s| - 1 - TrailingCommas(s)] != COMMA
    decreases |s|
  {
    if s[|s| - 1] == COMMA { TrailingStop(s[..|s| - 1]); }
  }

  lemma {:induction false} ClosedFrom(s: seq<byte>, end: nat)
    requires end <= |s|
    ensures Closed(s, end) <==> TrailingCommas(s[end..]) % 2 == 0
    decreases |s| - end
  {
    if end < |s| {
      var t := s[end..];
      var n := TrailingCommas(t);
      if s[end] != COMMA {
        if n == |t| { TrailingAll(t, 0); }
        ClosedFrom(s, end + 1);
        TrailingDrop(t, 1);
        assert t[1..] == s[end + 1..];
      } else if |t| >= 2 {
        if n == |t| - 1 { TrailingStop(t); }
        ClosedFrom(s, end + 2);
        TrailingDrop(t, 2);
        assert t[2..] == s[end + 2..];
      } else {
        assert t == [COMMA] && t[..0] == [];
      }
    }
  }

  /** The parser stays inside its text if and only if that ends in an even number of commas. */
  lemma ClosedIff(s: seq<byte>)
    ensures Closed(s, 0) <==> TrailingCommas(s) % 2 == 0
  {
    ClosedFrom(s, 0);
    assert s[0..] == s;
  }

  /** "1," makes it run past, "1,," does not. */
  lemma TrailingCommaRunsPast()
    ensures !Closed([ZERO + 1, COMMA], 0) && Closed([ZERO + 1, COMMA, COMMA], 0)
  {
    assert !Closed([ZERO + 1, COMMA], 1);
    assert Closed([ZERO + 1, COMMA, COMMA], 1);
  }

  /** Scanning over characters that are not commas. */
  lemma {:induction false} ScanOver(s: seq<byte>, start: nat, end: nat, stop: nat)
    requires start <= end <= stop <= |s|
    requires forall i :: end <= i < stop ==> s[i] != COMMA
    ensures Closed(s, end) <==> Closed(s, stop)
    ensures Fields(s, start, end) == Fields(s, start, stop)
    decreases stop - end
  {
    if end < stop { ScanOver(s, start, end + 1, stop); }
  }

  function Decimals(xs: seq<byte>): (fs: seq<seq<byte>>)
    ensures |fs| == |xs|
  {
    if xs == [] then [] else [Decimal(xs[0])] + Decimals(xs[1..])
  }

  lemma {:induction false} DecimalsAt(xs: seq<byte>, i: nat)
    requires i < |xs|
    ensures Decimals(xs)[i] == Decimal(xs[i])
    decreases |xs|
  {
    if i > 0 { DecimalsAt(xs[1..], i - 1); }
  }

  /** Where the first number of a printed list ends, and what follows it. */
  lemma FirstField(xs: seq<byte>, s: seq<byte>, start: nat)
    requires xs != [] && start <= |s| && s[start..] == Printed(xs)
    ensures
      var d := Decimal(xs[0]);
      var stop := start + |d|;
      && stop <= |s| && s[start..stop] == d
      && (forall i :: start <= i < stop ==> s[i] != COMMA)
      && (|xs| == 1 ==> stop == |s|)
      && (|xs| > 1 ==> stop + 1 < |s| && s[stop] == COMMA && s[stop + 1..] == Printed(xs[1..]))
  {
    hide Decimal;
    var d, t := Decimal(xs[0]), s[start..];
    var stop := start + |d|;
    assert s[start..stop] == t[..|d|] == d;
    forall i | start <= i < stop ensures s[i] != COMMA { assert s[i] == d[i - start]; }
    if |xs| > 1 {
      assert s[stop] == t[|d|];
      assert s[stop + 1..] == t[|d| + 1..];
    }
  }

  /** The fields of a printed list, from any element on, are its numbers in decimal. */
  lemma {:induction false} FieldsOfPrinted(xs: seq<byte>, s: seq<byte>, start: nat, end: nat)
    requires xs != [] && start <= end <= start + 1 && end <= |s|
    requires s[start..] == Printed(xs)
    ensures Closed(s, end)
    ensures Fields(s, start, end) == Decimals(xs)
    decreases |xs|
  {
    hide Decimal, Printed;
    var stop := start + |Decimal(xs[0])|;
    FirstField(xs, s, start);
    ScanOver(s, start, end, stop);
    if |xs| > 1 {
      FieldsOfPrinted(xs[1..], s, stop + 1, stop + 2);
    } else {
      assert s[start..stop] == s[start..];
    }
  }

  const WORD := 0x1_0000_0000

  lemma Multiple(x: nat, k: nat)
    ensures (x + k * WORD) % WORD == x % WORD
  {
  }

  lemma MulMod(a: nat, b: nat)
    ensures (a % WORD) * b % WORD == a * b % WORD
  {
    var q, r := a / WORD, a % WORD;
    assert a * b == r * b + (q * b) * WORD by {
      assert a == q * WORD + r;
      assert (q * WORD + r) * b == (q * b) * WORD + r * b;
    }
    Multiple(r * b, q * b);
  }

  /** uc_nth_power, in 32 bits. */
  method NthPower(num: nat, n: nat) returns (s: nat)
    ensures s == Pow(num, n) % WORD
  {
    s := 1;
    var i := 0;
    while i < n
      invariant 0 <= i <= n
      invariant s == Pow(num, i) % WORD
    {
      MulMod(Pow(num, i), num);
      assert Pow(num, i) * num == Pow(num, i + 1);
      s := s * num % WORD;
      i := i + 1;
    }
  }

  lemma SameByte(u: nat, v: nat, k: nat)
    requires u == v + 256 * k
    ensures u % 256 == v % 256
  {
  }

  lemma AddMod(x: nat, y: nat)
    ensures (x % 256 + y % WORD) % 256 == (x + y) % 256
  {
    var p, q := x / 256, y / WORD;
    SameByte(x + y, x % 256 + y % WORD, p + q * 0x100_0000);
  }

  /** Adding a product computed in 32 bits to a byte keeps the byte of the exact sum. */
  lemma AccumulateByte(a: byte, total: nat, p: nat, d: nat)
    requires a == total % 256
    ensures (a + (p % WORD) * d % WORD) % 256 == (total + p * d) % 256
  {
    MulMod(p, d);
    AddMod(total, p * d);
  }

  /** What a field adds to its element. */
  function Added(f: seq<byte>, mallocOk: bool): (n: nat) {
    if mallocOk then Numeral(f) else 0
  }

  /** The exact sum after `len` digits. */
  function Weighted(base: nat, f: seq<byte>, len: nat): (t: nat)
    requires len <= |f|
  {
    base + Numeral(f[..len]) * Pow(10, |f| - len)
  }

  lemma WeightedEnds(base: nat, f: seq<byte>)
    ensures Weighted(base, f, 0) == base && Weighted(base, f, |f|) == base + Numeral(f)
  {
    assert f[..0] == [] && f[..|f|] == f;
  }

  lemma NumeralStep(f: seq<byte>, len: nat, nth: nat)
    requires len < |f| && nth >= 1
    ensures Numeral(f[..len + 1]) * Pow(10, nth - 1) ==
            Numeral(f[..len]) * Pow(10, nth) + Pow(10, nth - 1) * DigitValue(f[len])
  {
    assert f[..len + 1][..len] == f[..len];
    var n, p, d := Numeral(f[..len]), Pow(10, nth - 1), DigitValue(f[len]);
    assert (n * 10 + d) * p == n * (10 * p) + p * d;
  }

  lemma WeightedStep(base: nat, f: seq<byte>, len: nat, a: byte)
    requires len < |f| && a == Weighted(base, f, len) % 256
    ensures (a + (Pow(10, |f| - len - 1) % WORD) * DigitValue(f[len]) % WORD) % 256 == Weighted(base, f, len + 1) % 256
  {
    var p, d := Pow(10, |f| - len - 1), DigitValue(f[len]);
    NumeralStep(f, len, |f| - len);
    AccumulateByte(a, Weighted(base, f, len), p, d);
    hide Pow, Numeral;
  }

  /** uc_string_to_int: digits are added highest first, each with its power of ten;
      without memory for a copy of them the element stays as it was. */
  method StringToInt(f: seq<byte>, num: nat, a: array<byte>, mallocOk: bool)
    requires num < a.Length
    modifies a
    ensures a[num] == (old(a[num]) + Added(f, mallocOk)) % 256
    ensures forall i :: 0 <= i < a.Length && i != num ==> a[i] == old(a[i])
  {
    hide Pow, Numeral, Weighted;
    if !mallocOk { return; }
    var nth, len := |f|, 0;
    WeightedEnds(a[num], f);
    while len < |f|
      invariant 0 <= len <= |f| && nth == |f| - len
      invariant a[num] == Weighted(old(a[num]), f, len) % 256
      invariant forall i :: 0 <= i < a.Length && i != num ==> a[i] == old(a[i])
    {
      var temp := DigitValue(f[len]);
      var power := NthPower(10, nth - 1);
      WeightedStep(old(a[num]), f, len, a[num]);
      a[num] := (a[num] + power * temp % WORD) % 256;
      nth := nth - 1;
      len := len + 1;
    }
  }

  /** The parser is at `end`, in field `num` of `fs`, which starts at `start`. */
  predicate InField(s: seq<byte>, fs: seq<seq<byte>>, num: nat, start: nat, end: nat) {
    start <= end <= |s| && num < |fs| && fs[num..] == Fields(s, start, end)
  }

  lemma InFieldIndex(s: seq<byte>, fs: seq<seq<byte>>, num: nat, start: nat, end: nat)
    requires InField(s, fs, num, start, end)
    ensures num < |fs|
  {
  }

  lemma FirstStep(s: seq<byte>)
    requires s != []
    ensures InField(s, Parsed(s), 0, 0, 0)
  {
    assert Parsed(s)[0..] == Parsed(s);
  }

  lemma EmptyClosed()
    ensures Closed([], 0)
  {
  }

  /** A comma ends the field; one at the very end leads past the text. */
  lemma CommaStep(s: seq<byte>, fs: seq<seq<byte>>, num: nat, start: nat, end: nat)
    requires end < |s| && s[end] == COMMA && InField(s, fs, num, start, end)
    ensures fs[num] == s[start..end]
    ensures end + 1 < |s| ==> InField(s, fs, num + 1, end + 1, end + 2) && Closed(s, end) == Closed(s, end + 2)
    ensures end + 1 == |s| ==> num + 1 == |fs| && !Closed(s, end)
  {
    assert fs[num] == fs[num..][0] && fs[num + 1..] == fs[num..][1..];
  }

  lemma CharStep(s: seq<byte>, fs: seq<seq<byte>>, num: nat, start: nat, end: nat)
    requires end < |s| && s[end] != COMMA && InField(s, fs, num, start, end)
    ensures InField(s, fs, num, start, end + 1) && Closed(s, end) == Closed(s, end + 1)
  {
  }

  lemma LastStep(s: seq<byte>, fs: seq<seq<byte>>, num: nat, start: nat)
    requires InField(s, fs, num, start, |s|)
    ensures num + 1 == |fs| && fs[num] == s[start..] && Closed(s, |s|)
  {
    assert fs[num] == fs[num..][0];
  }

  /** uc_string_to_array on any text: the numbers are added to the array modulo 256, and
      the code runs past the text if and only if that ends in an odd number of commas. */
  method StringToArray(s: seq<byte>, a: array<byte>, mallocOk: nat -> bool) returns (num: nat, past: bool)
    requires |Parsed(s)| <= a.Length
    modifies a
    ensures num == |Parsed(s)| && (past <==> TrailingCommas(s) % 2 == 1)
    ensures forall i :: 0 <= i < num ==> a[i] == (old(a[i]) + Added(Parsed(s)[i], mallocOk(i))) % 256
    ensures forall i :: num <= i < a.Length ==> a[i] == old(a[i])
  {
    hide Numeral, TrailingCommas, Added, InField, Closed;
    ClosedIff(s);
    num, past := 0, false;
    if s == [] {
      assert Closed(s, 0) by { EmptyClosed(); }
      return;
    }
    ghost var fs := Parsed(s);
    assert fs[0..] == fs;
    assert InField(s, fs, 0, 0, 0) by { FirstStep(s); }
    var start, end := 0, 0;
    while end < |s|
      invariant 0 <= start <= |s| && start <= end <= |s| + 1
      invariant if end <= |s| then InField(s, fs, num, start, end) && (Closed(s, end) <==> Closed(s, 0))
                else !Closed(s, 0) && num == |fs|
      invariant num <= |fs|
      invariant forall i :: 0 <= i < num ==> a[i] == (old(a[i]) + Added(fs[i], mallocOk(i))) % 256
      invariant forall i :: num <= i < a.Length ==> a[i] == old(a[i])
    {
      InFieldIndex(s, fs, num, start, end);
      if s[end] == COMMA {
        CommaStep(s, fs, num, start, end);
        StringToInt(s[start..end], num, a, mallocOk(num));
        num := num + 1;
        end := end + 1;
        start := end;
      } else {
        CharStep(s, fs, num, start, end);
      }
      end := end + 1;
    }
    if end > |s| { return num, true; }
    LastStep(s, fs, num, start);
    StringToInt(s[start..], num, a, mallocOk(num));
    num := num + 1;
  }

  /** Parsing a printed list gives the list: as many numbers, each of them below 256. */
  lemma ParsedOfPrinted(xs: seq<byte>)
    ensures Closed(Printed(xs), 0)
    ensures |Parsed(Printed(xs))| == |xs|
    ensures forall i :: 0 <= i < |xs| ==> Numeral(Parsed(Printed(xs))[i]) == xs[i]
  {
    hide Decimal, Numeral;
    if xs != [] {
      var s := Printed(xs);
      assert s[0..] == s;
      FieldsOfPrinted(xs, s, 0, 0);
      forall i | 0 <= i < |xs| ensures Numeral(Parsed(s)[i]) == xs[i] {
        DecimalsAt(xs, i);
        NumeralOfDecimal(xs[i]);
      }
    }
  }

  /** The text in the buffer, up to its NUL. */
  method TextOf(text: array<byte>, ghost xs: seq<byte>) returns (s: seq<byte>)
    requires |Printed(xs)| <= text.Length && text[..|Printed(xs)|] == Printed(xs)
    requires forall i :: |Printed(xs)| <= i < text.Length ==> text[i] == 0
    ensures s == Printed(xs)
  {
    hide Printed;
    ghost var printed := Printed(xs);
    assert forall i :: 0 <= i < |printed| ==> text[i] == printed[i];
    var n := 0;
    while n < text.Length && text[n] != 0
      invariant 0 <= n <= |printed|
    {
      n := n + 1;
    }
    s := text[..n];
  }

  /** Printing and parsing back is the identity on byte arrays of any length, but for
      numbers whose field could not be copied, which come back as 0. */
  method PrintAndParse(xs: seq<byte>, text: array<byte>, back: array<byte>, mallocOk: nat -> bool)
    returns (num: nat, past: bool)
    requires text != back && |Printed(xs)| <= text.Length && |xs| <= back.Length
    requires forall i :: 0 <= i < text.Length ==> text[i] == 0
    requires forall i :: 0 <= i < back.Length ==> back[i] == 0
    modifies text, back
    ensures num == |xs| && !past
    ensures forall i :: 0 <= i < num ==> back[i] == if mallocOk(i) then xs[i] else 0
  {
    hide Printed, Numeral, Fields, TrailingCommas;
    var len := ArrayToString(xs, text);
    ParsedOfPrinted(xs);
    var s := TextOf(text, xs);
    ClosedIff(s);
    num, past := StringToArray(s, back, mallocOk);
  }
}
