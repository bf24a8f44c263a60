/** Printing and parsing integers (wamr-pal/pal_string.c:247-332, 348-407).

    Strings are the characters before the terminator; unsigned long has 64 bits. */
module IntText {
  import opened Arith

  const TWO_63: int := 0x8000_0000_0000_0000
  const TMP_SIZE: nat := 20          // the digit buffer

  type I64 = n: int | -TWO_63 <= n < TWO_63

  // ----- text -----

  function DigitChar(d: nat, upper: bool): char
    requires d < 16
  {
    if upper then "0123456789ABCDEF"[d] else "0123456789abcdef"[d]
  }

  /** char_to_digit */
  function CharToDigit(c: char, base: nat): int {
    var val := if '0' <= c <= '9' then c as int - '0' as int
               else if 'a' <= c <= 'z' then c as int - 'a' as int + 10
               else if 'A' <= c <= 'Z' then c as int - 'A' as int + 10
               else -1;
    if val < base then val else -1
  }

  function IsSpace(c: char): bool {
    c == ' ' || c == '\t' || c == '\n' || c == '\r' || c == '\U{0C}' || c == '\U{0B}'
  }

  /** A decimal digit, or a letter of the case that was asked for. */
  predicate InCase(c: char, upper: bool) {
    '0' <= c <= '9' || if upper then 'A' <= c <= 'F' else 'a' <= c <= 'f'
  }

  lemma DigitBack(d: nat, upper: bool, base: nat)
    requires d < base <= 16
    ensures CharToDigit(DigitChar(d, upper), base) == d
    ensures InCase(DigitChar(d, upper), upper)
    ensures !IsSpace(DigitChar(d, upper))
  {
    var c := DigitChar(d, upper);
    if d < 10 {
      assert c as int == '0' as int + d;
    } else {
      assert c as int == (if upper then 'A' else 'a') as int + d - 10;
    }
  }

  /** The numeral of val, most significant digit first. */
  function Numeral(val: nat, base: nat, upper: bool): (t: string)
    requires 2 <= base <= 16
    ensures |t| > 0
  {
    if val < base then [DigitChar(val, upper)]
    else Numeral(val / base, base, upper) + [DigitChar(val % base, upper)]
  }

  function Fill(n: int, c: char): (t: string)
    ensures |t| == if n > 0 then n else 0
  {
    if n <= 0 then [] else Fill(n - 1, c) + [c]
  }

  /** All that should be printed, if there is room. */
  function UnsignedText(val: nat, base: nat, upper: bool, width: int, fill: char): string
    requires 2 <= base <= 16
  {
    Fill(width - |Numeral(val, base, upper)|, fill) + Numeral(val, base, upper)
  }

  function SignedText(val: int, width: int, fill: char): string {
    if val < 0 then ['-'] + UnsignedText(-val, 10, false, if width > 0 then width - 1 else width, fill)
    else UnsignedText(val, 10, false, width, fill)
  }

  // ----- the printer -----

  lemma {:induction false} DivBelow(val: nat, base: nat, p: nat)
    requires base > 0
    ensures val / base < p <==> val < base * p
  {
    var q := val / base;
    if q < p {
      assert base * q <= base * (p - 1);
    } else {
      assert base * q >= base * p;
    }
  }

  /** val has at most n digits exactly if it is below base^n. */
  lemma {:induction false} NumeralLength(val: nat, base: nat, upper: bool, n: nat)
    requires 2 <= base <= 16 && n > 0
    ensures |Numeral(val, base, upper)| <= n <==> val < Pow(base, n)
  {
    if n == 1 {
      assert Pow(base, 1) == base;
    } else {
      DivBelow(val, base, Pow(base, n - 1));
      if val < base {
        PowGrows(base, 1, n);
      } else {
        NumeralLength(val / base, base, upper, n - 1);
      }
    }
  }

  lemma {:induction false} PowGrows(b: nat, m: nat, n: nat)
    requires b >= 1 && m <= n
    ensures 1 <= Pow(b, m) <= Pow(b, n)
  {
    if n > m {
      PowGrows(b, m, n - 1);
      MulSign(Pow(b, n - 1), b);
    } else if m > 0 {
      PowGrows(b, m - 1, m - 1);
      MulSign(Pow(b, m - 1), b);
    }
  }

  lemma MulMonotone(a: nat, b: nat, p: nat, q: nat)
    requires a <= b && p <= q
    ensures a * p <= b * q
  {
    assert b * q - a * p == (b - a) * q + a * (q - p);
  }

  lemma {:induction false} PowBase(b: nat, c: nat, n: nat)
    requires b <= c
    ensures Pow(b, n) <= Pow(c, n)
  {
    if n > 0 {
      PowBase(b, c, n - 1);
      MulMonotone(b, c, Pow(b, n - 1), Pow(c, n - 1));
    }
  }

  lemma Powers()
    ensures Pow(10, 20) == 100000000000000000000
    ensures Pow(9, 20) == 12157665459056928801
  {
    assert Pow(10, 5) == 100000 && Pow(10, 10) == 10000000000 && Pow(10, 15) == 1000000000000000;
    assert Pow(9, 5) == 59049 && Pow(9, 10) == 3486784401 && Pow(9, 15) == 205891132094649;
  }

  /** The digit buffer holds every 64-bit value exactly for bases of 10 and more; for the smaller bases
      that the function is also documented for, the largest value does not fit. */
  lemma BufferSuffices(base: nat, upper: bool)
    requires 2 <= base <= 16
    ensures (forall val: U64 :: |Numeral(val, base, upper)| <= TMP_SIZE) <==> base >= 10
  {
    Powers();
    if base >= 10 {
      PowBase(10, base, TMP_SIZE);
      forall val: U64 ensures |Numeral(val, base, upper)| <= TMP_SIZE {
        NumeralLength(val, base, upper, TMP_SIZE);
      }
    } else {
      PowBase(base, 9, TMP_SIZE);
      var largest: U64 := TWO_64 - 1;
      NumeralLength(largest, base, upper, TMP_SIZE);
      assert |Numeral(largest, base, upper)| > TMP_SIZE;
    }
  }

  /** The digits of val, the least significant one first, are put into tmp. */
  method Digits(val: U64, base: nat, upper: bool, tmp: array<char>) returns (len: nat)
    requires 2 <= base <= 16 && tmp.Length == TMP_SIZE
    requires |Numeral(val, base, upper)| <= TMP_SIZE
    modifies tmp
    ensures len == |Numeral(val, base, upper)| <= TMP_SIZE
    ensures forall k :: 0 <= k < len ==> tmp[len - 1 - k] == Numeral(val, base, upper)[k]
  {
    if val == 0 {
      tmp[0] := '0';
      assert DigitChar(0, upper) == '0';
      return 1;
    }
    ghost var text := Numeral(val, base, upper);
    var v: nat := val;
    len := 0;
    while v != 0
      invariant len <= |text| && (v == 0 <==> len == |text|)
      invariant v > 0 ==> text[..|text| - len] == Numeral(v, base, upper)
      invariant forall k :: 0 <= k < len ==> tmp[k] == text[|text| - 1 - k]
      decreases v
    {
      ghost var head := Numeral(v, base, upper);
      assert head[|head| - 1] == DigitChar(v % base, upper) == text[|text| - 1 - len] by {
        DivSmall(v, base);
      }
      tmp[len] := DigitChar(v % base, upper);
      len := len + 1;
      DivSmall(v, base);
      v := v / base;
      assert text[..|text| - len] == head[..|head| - 1];
    }
  }

  lemma DivSmall(v: nat, base: nat)
    requires base >= 2 && v > 0
    ensures v / base < v
    ensures v < base ==> v / base == 0 && v % base == v
    ensures v >= base ==> v / base > 0
  {
    if v < base {
      ModIs(v, 0, v, base);
    } else {
      DivBelow(v, base, v);
      DivBelow(v, base, 1);
      MulSign(v, base - 1);
    }
  }

  /** How much of a text is printed into this room: one character is kept for the terminator. */
  function Printed(text: string, remain: nat): string {
    if remain == 0 then [] else if |text| < remain then text else text[..remain - 1]
  }

  /** The buffer holds part from at on, and is as before elsewhere. */
  ghost predicate Wrote(now: seq<char>, before: seq<char>, at: nat, part: string) {
    && |now| == |before| && at + |part| <= |now|
    && (forall k :: at <= k < at + |part| ==> now[k] == part[k - at])
    && (forall k :: 0 <= k < |now| && !(at <= k < at + |part|) ==> now[k] == before[k])
  }

  lemma WroteMore(now: seq<char>, middle: seq<char>, before: seq<char>, at: nat, part: string, part': string)
    requires Wrote(middle, before, at, part) && Wrote(now, middle, at + |part|, part')
    ensures Wrote(now, before, at, part + part')
  {
    forall k | at <= k < at + |part + part'| ensures now[k] == (part + part')[k - at] {
      assert k < at + |part| ==> now[k] == middle[k];
    }
  }

  /** The padding loop. */
  method WriteFill(buf: array<char>, at: nat, remain: nat, pad: nat, fill: char) returns (written: nat)
    requires at + remain <= buf.Length
    modifies buf
    ensures written == |Printed(Fill(pad, fill), remain)|
    ensures Wrote(buf[..], old(buf[..]), at, Printed(Fill(pad, fill), remain))
  {
    var left, i := remain, 0;
    FillAll(pad, fill);
    while i < pad && left > 1
      invariant 0 <= i <= pad && left + i == remain && (i > 0 ==> left >= 1)
      invariant forall k :: at <= k < at + i ==> buf[k] == fill
      invariant forall k :: 0 <= k < buf.Length && !(at <= k < at + i) ==> buf[k] == old(buf[k])
    {
      buf[at + i] := fill;
      left := left - 1;
      i := i + 1;
    }
    written := i;
  }

  /** The loop over the digits in reverse. */
  method WriteDigits(buf: array<char>, at: nat, remain: nat, tmp: array<char>, len: nat, ghost number: string)
    returns (written: nat)
    requires at + remain <= buf.Length && len == |number| <= tmp.Length && buf != tmp
    requires forall k :: 0 <= k < len ==> tmp[len - 1 - k] == number[k]
    modifies buf
    ensures written == |Printed(number, remain)|
    ensures Wrote(buf[..], old(buf[..]), at, Printed(number, remain))
  {
    var left, i := remain, len - 1;
    written := 0;
    while i >= 0 && left > 1
      invariant -1 <= i <= len - 1 && written == len - 1 - i && left + written == remain && (written > 0 ==> left >= 1)
      invariant forall k :: at <= k < at + written ==> buf[k] == number[k - at]
      invariant forall k :: 0 <= k < buf.Length && !(at <= k < at + written) ==> buf[k] == old(buf[k])
    {
      assert tmp[len - 1 - written] == number[written];
      buf[at + written] := tmp[i];
      left := left - 1;
      written := written + 1;
      i := i - 1;
    }
  }

  /** Printing two parts one after the other prints the whole. */
  lemma PrintedParts(now: seq<char>, middle: seq<char>, before: seq<char>, at: nat, a: string, b: string, remain: nat)
    requires Wrote(middle, before, at, Printed(a, remain))
    requires Wrote(now, middle, at + |Printed(a, remain)|, Printed(b, remain - |Printed(a, remain)|))
    ensures |Printed(a, remain)| + |Printed(b, remain - |Printed(a, remain)|)| == |Printed(a + b, remain)|
    ensures Wrote(now, before, at, Printed(a + b, remain))
  {
    WroteMore(now, middle, before, at, Printed(a, remain), Printed(b, remain - |Printed(a, remain)|));
    assert Printed(a, remain) + Printed(b, remain - |Printed(a, remain)|) == Printed(a + b, remain);
  }

  /** fmt_uint64 at buf[at..]: as much of the text as fits, and nothing else is touched. */
  method FmtUint64(buf: array<char>, at: nat, remain: nat, val: U64, base: nat, upper: bool, width: int, fill: char)
    returns (written: nat)
    requires at + remain <= buf.Length && 2 <= base <= 16 && |Numeral(val, base, upper)| <= TMP_SIZE
    modifies buf
    ensures written == |Printed(UnsignedText(val, base, upper, width, fill), remain)|
    ensures Wrote(buf[..], old(buf[..]), at, Printed(UnsignedText(val, base, upper, width, fill), remain))
  {
    var tmp := new char[TMP_SIZE];
    var len := Digits(val, base, upper, tmp);
    var pad := if width > len then width - len else 0;
    written := WriteFill(buf, at, remain, pad, fill);
    ghost var middle, padding, number := buf[..], Fill(pad, fill), Numeral(val, base, upper);
    var n := WriteDigits(buf, at + written, remain - written, tmp, len, number);
    PrintedParts(buf[..], middle, old(buf[..]), at, padding, number, remain);
    assert UnsignedText(val, base, upper, width, fill) == padding + number;
    written := written + n;
  }

  lemma {:induction false} FillAll(n: int, c: char)
    ensures forall k :: 0 <= k < n ==> Fill(n, c)[k] == c
  {
    if n > 0 {
      FillAll(n - 1, c);
    }
  }

  lemma DecimalFits(val: U64)
    ensures |Numeral(val, 10, false)| <= TMP_SIZE
  {
    BufferSuffices(10, false);
  }

  /** fmt_int64 */
  method FmtInt64(buf: array<char>, at: nat, remain: nat, val: I64, width: int, fill: char) returns (written: nat)
    requires at + remain <= buf.Length
    modifies buf
    ensures written == |Printed(SignedText(val, width, fill), remain)|
    ensures Wrote(buf[..], old(buf[..]), at, Printed(SignedText(val, width, fill), remain))
  {
    if val >= 0 {
      DecimalFits(val);
      written := FmtUint64(buf, at, remain, val, 10, false, width, fill);
    } else {
      written := FmtNegative(buf, at, remain, val, width, fill);
    }
  }

  method FmtNegative(buf: array<char>, at: nat, remain: nat, val: I64, width: int, fill: char) returns (written: nat)
    requires at + remain <= buf.Length && val < 0
    modifies buf
    ensures written == |Printed(SignedText(val, width, fill), remain)|
    ensures Wrote(buf[..], old(buf[..]), at, Printed(SignedText(val, width, fill), remain))
  {
    hide Printed, UnsignedText, Numeral, Fill;
    written := WriteSign(buf, at, remain);
    ghost var middle := buf[..];
    var uval: U64 := -(val + 1) + 1;
    DecimalFits(uval);
    var w := if width > 0 then width - 1 else width;
    var n := FmtUint64(buf, at + written, remain - written, uval, 10, false, w, fill);
    ghost var text := UnsignedText(uval, 10, false, w, fill);
    PrintedParts(buf[..], middle, old(buf[..]), at, ['-'], text, remain);
    assert SignedText(val, width, fill) == ['-'] + text;
    written := written + n;
  }

  method WriteSign(buf: array<char>, at: nat, remain: nat) returns (written: nat)
    requires at + remain <= buf.Length
    modifies buf
    ensures written == |Printed(['-'], remain)| <= remain
    ensures Wrote(buf[..], old(buf[..]), at, Printed(['-'], remain))
  {
    written := 0;
    if remain > 1 {
      buf[at] := '-';
      written := 1;
    }
  }

  // ----- the parser -----

  function At(t: string, i: nat): char {
    if i < |t| then t[i] else '\0'
  }

  function SkipSpaces(t: string, i: nat): (j: nat)
    requires i <= |t|
    ensures i <= j <= |t|
    decreases |t| - i
  {
    if IsSpace(At(t, i)) then SkipSpaces(t, i + 1) else i
  }

  function DigitsEnd(t: string, i: nat, base: nat): (j: nat)
    requires i <= |t|
    ensures i <= j <= |t|
    decreases |t| - i
  {
    if CharToDigit(At(t, i), base) >= 0 then DigitsEnd(t, i + 1, base) else i
  }

  /** The number that a row of digits stands for. */
  function Value(digits: string, base: nat): int {
    if digits == [] then 0
    else Value(digits[..|digits| - 1], base) * base + CharToDigit(digits[|digits| - 1], base)
  }

  predicate HexMark(c: char) {
    c == 'x' || c == 'X'
  }

  /** Where the digits start, and their base: base 0 means to find out. */
  function DigitsStart(t: string, i: nat, base: nat): (r: (nat, nat))
    requires i <= |t|
    ensures i <= r.0 <= |t|
  {
    var j := if At(t, i) == '+' then i + 1 else i;
    if base == 0 then
      if At(t, j) != '0' then (j, 10) else if HexMark(At(t, j + 1)) then (j + 2, 16) else (j + 1, 8)
    else if base == 16 && At(t, j) == '0' && HexMark(At(t, j + 1)) then (j + 2, 16)
    else (j, base)
  }

  /** Value and end of the number at t[i..], in 64 bits. */
  function ParseUnsigned(t: string, i: nat, base: nat): (U64, nat)
    requires i <= |t|
  {
    var (start, b) := DigitsStart(t, SkipSpaces(t, i), base);
    var end := DigitsEnd(t, start, b);
    (Value(t[start..end], b) % TWO_64, end)
  }

  /** long from unsigned long */
  function AsLong(v: U64): int {
    if v < TWO_63 then v else v - TWO_64
  }

  /** Negating the least long, which C leaves undefined, gives 2^63 here. */
  function ParseSigned(t: string, base: nat): (int, nat) {
    var i := SkipSpaces(t, 0);
    var neg := At(t, i) == '-';
    var (v, end) := ParseUnsigned(t, if neg || At(t, i) == '+' then i + 1 else i, base);
    (if neg then -AsLong(v) else AsLong(v), end)
  }

  lemma {:induction false} MulMod(x: int, b: int, d: int, m: int)
    requires m > 0
    ensures (x % m * b + d) % m == (x * b + d) % m
  {
    var q, r := x / m, x % m;
    assert x * b + d == m * (q * b) + (r * b + d) by {
      assert x == m * q + r;
      assert m * q * b == m * (q * b);
    }
    ModPlusMultiple(r * b + d, q * b, m);
  }

  lemma {:induction false} ModPlusMultiple(y: int, k: int, m: int)
    requires m > 0
    ensures (m * k + y) % m == y % m
  {
    assert m * k + y == m * (k + y / m) + y % m;
    ModIs(m * k + y, k + y / m, y % m, m);
  }

  /** strtoul: the number in 64 bits, so the exact number if and only if that fits. */
  method Strtoul(t: string, from: nat, base: nat) returns (result: U64, end: nat)
    requires from <= |t|
    ensures (result, end) == ParseUnsigned(t, from, base)
  {
    var s := from;
    while IsSpace(At(t, s))
      invariant from <= s <= |t| && SkipSpaces(t, s) == SkipSpaces(t, from)
      decreases |t| - s
    {
      s := s + 1;
    }
    var start, b := FindDigits(t, s, base);
    result, end := Accumulate(t, start, b);
  }

  method FindDigits(t: string, from: nat, base: nat) returns (s: nat, b: nat)
    requires from <= |t|
    ensures (s, b) == DigitsStart(t, from, base)
  {
    s, b := from, base;
    if At(t, s) == '+' {
      s := s + 1;
    }
    if b == 0 {
      if At(t, s) == '0' {
        s := s + 1;
        if HexMark(At(t, s)) {
          b := 16;
          s := s + 1;
        } else {
          b := 8;
        }
      } else {
        b := 10;
      }
    } else if b == 16 {
      if At(t, s) == '0' && HexMark(At(t, s + 1)) {
        s := s + 2;
      }
    }
  }

  method Accumulate(t: string, start: nat, base: nat) returns (result: U64, s: nat)
    requires start <= |t|
    ensures s == DigitsEnd(t, start, base) && result == Value(t[start..s], base) % TWO_64
  {
    result, s := 0, start;
    var digit := CharToDigit(At(t, s), base);
    while digit >= 0
      invariant start <= s <= |t| && digit == CharToDigit(At(t, s), base)
      invariant DigitsEnd(t, s, base) == DigitsEnd(t, start, base)
      invariant result == Value(t[start..s], base) % TWO_64
      decreases |t| - s
    {
      MulMod(Value(t[start..s], base), base, digit, TWO_64);
      assert t[start..s + 1][..s - start] == t[start..s];
      result := (result * base + digit) % TWO_64;
      s := s + 1;
      digit := CharToDigit(At(t, s), base);
    }
  }

  /** strtol */
  method Strtol(t: string, base: nat) returns (result: int, end: nat)
    ensures (result, end) == ParseSigned(t, base)
  {
    var s := 0;
    while IsSpace(At(t, s))
      invariant s <= |t| && SkipSpaces(t, s) == SkipSpaces(t, 0)
      decreases |t| - s
    {
      s := s + 1;
    }
    var neg := false;
    if At(t, s) == '-' {
      neg := true;
      s := s + 1;
    } else if At(t, s) == '+' {
      s := s + 1;
    }
    var val;
    val, end := Strtoul(t, s, base);
    result := if neg then -AsLong(val) else AsLong(val);
  }

  // ----- round trips -----

  /** Numerals are in the case that was asked for. */
  lemma {:induction false} NumeralCase(val: nat, base: nat, upper: bool)
    requires 2 <= base <= 16
    ensures forall c :: c in Numeral(val, base, upper) ==> InCase(c, upper)
  {
    DigitBack(val % base, upper, base);
    if val < base {
      ModIs(val, 0, val, base);
    } else {
      DivSmall(val, base);
      NumeralCase(val / base, base, upper);
    }
  }

  /** Spaces up to p, digits from there on. */
  ghost predicate SpacesThenDigits(t: string, i: nat, p: nat, base: nat) {
    && i <= p < |t|
    && (forall k :: i <= k < p ==> t[k] == ' ')
    && (forall k :: p <= k < |t| ==> CharToDigit(t[k], base) >= 0)
  }

  lemma {:induction false} SkipTo(t: string, i: nat, p: nat, base: nat)
    requires SpacesThenDigits(t, i, p, base)
    ensures SkipSpaces(t, i) == p
    decreases p - i
  {
    if i < p {
      SkipTo(t, i + 1, p, base);
    }
  }

  lemma {:induction false} DigitsToEnd(t: string, i: nat, base: nat)
    requires i <= |t| && forall k :: i <= k < |t| ==> CharToDigit(t[k], base) >= 0
    ensures DigitsEnd(t, i, base) == |t|
    decreases |t| - i
  {
    if i < |t| {
      DigitsToEnd(t, i + 1, base);
    }
  }

  lemma {:induction false} ParseDigits(t: string, i: nat, p: nat, base: nat)
    requires SpacesThenDigits(t, i, p, base) && 2 <= base <= 16
    ensures ParseUnsigned(t, i, base) == (Value(t[p..], base) % TWO_64, |t|)
  {
    SkipTo(t, i, p, base);
    DigitsToEnd(t, p, base);
    assert At(t, p) != '+' && !HexMark(At(t, p + 1));
    assert t[p..|t|] == t[p..];
  }

  lemma {:induction false} NumeralValue(val: nat, base: nat, upper: bool)
    requires 2 <= base <= 16
    ensures Value(Numeral(val, base, upper), base) == val
    ensures forall k :: 0 <= k < |Numeral(val, base, upper)| ==> CharToDigit(Numeral(val, base, upper)[k], base) >= 0
  {
    DigitBack(val % base, upper, base);
    if val < base {
      ModIs(val, 0, val, base);
    } else {
      DivSmall(val, base);
      NumeralValue(val / base, base, upper);
      var head := Numeral(val / base, base, upper);
      assert Numeral(val, base, upper)[..|head|] == head;
      assert val == base * (val / base) + val % base;
    }
  }

  lemma {:induction false} LeadingZeros(n: int, digits: string, base: nat)
    requires base >= 1
    ensures Value(Fill(n, '0') + digits, base) == Value(digits, base)
  {
    var t := Fill(n, '0') + digits;
    if digits != [] {
      assert t[..|t| - 1] == Fill(n, '0') + digits[..|digits| - 1];
      LeadingZeros(n, digits[..|digits| - 1], base);
    } else if n > 0 {
      assert t == Fill(n, '0') && t[..|t| - 1] == Fill(n - 1, '0') + digits;
      LeadingZeros(n - 1, digits, base);
    }
  }

  /** A printed number, with something else before it, is spaces and then the digits of the number. */
  lemma {:induction false} SpacedText(pre: string, val: nat, base: nat, upper: bool, width: int) returns (p: nat)
    requires 2 <= base <= 16
    ensures var t := pre + UnsignedText(val, base, upper, width, ' ');
            SpacesThenDigits(t, |pre|, p, base) && Value(t[p..], base) == val
  {
    var number := Numeral(val, base, upper);
    var padding := Fill(width - |number|, ' ');
    NumeralValue(val, base, upper);
    FillAll(width - |number|, ' ');
    p := |pre| + |padding|;
    assert (pre + (padding + number))[p..] == number;
  }

  lemma {:induction false} ZeroedText(pre: string, val: nat, base: nat, upper: bool, width: int)
    requires 2 <= base <= 16
    ensures var t := pre + UnsignedText(val, base, upper, width, '0');
            SpacesThenDigits(t, |pre|, |pre|, base) && Value(t[|pre|..], base) == val
  {
    var number := Numeral(val, base, upper);
    var padding := Fill(width - |number|, '0');
    NumeralValue(val, base, upper);
    FillAll(width - |number|, '0');
    LeadingZeros(width - |number|, number, base);
    assert (pre + (padding + number))[|pre|..] == padding + number;
  }

  /** A printed number, with something else before it, is spaces and then the digits of the number. */
  lemma {:induction false} TextIsDigits(pre: string, val: nat, base: nat, upper: bool, width: int, fill: char)
    returns (p: nat)
    requires 2 <= base <= 16 && (fill == ' ' || fill == '0')
    ensures var t := pre + UnsignedText(val, base, upper, width, fill);
            SpacesThenDigits(t, |pre|, p, base) && Value(t[p..], base) == val
  {
    if fill == ' ' {
      p := SpacedText(pre, val, base, upper, width);
    } else {
      p := |pre|;
      ZeroedText(pre, val, base, upper, width);
    }
  }

  /** strtoul undoes the printing of every 64-bit number, in any base from 2 to 16 and with any width,
      and stops at the end of the text. */
  lemma {:induction false} UnsignedRoundTrip(val: U64, base: nat, upper: bool, width: int, fill: char)
    requires 2 <= base <= 16 && (fill == ' ' || fill == '0')
    ensures var t := UnsignedText(val, base, upper, width, fill);
            ParseUnsigned(t, 0, base) == (val, |t|)
  {
    var t := UnsignedText(val, base, upper, width, fill);
    var p := TextIsDigits([], val, base, upper, width, fill);
    assert [] + t == t;
    ParseDigits(t, 0, p, base);
    ModIs(val, 0, val, TWO_64);
  }

  lemma {:induction false} NumeralParsed(pre: string, val: U64, base: nat, upper: bool)
    requires 2 <= base <= 16
    ensures var t := pre + Numeral(val, base, upper);
            && DigitsEnd(t, |pre|, base) == |t| && Value(t[|pre|..|t|], base) % TWO_64 == val
  {
    var number := Numeral(val, base, upper);
    var t := pre + number;
    NumeralValue(val, base, upper);
    DigitsToEnd(t, |pre|, base);
    assert t[|pre|..|t|] == number;
    ModIs(val, 0, val, TWO_64);
  }

  /** Base 0 finds out the base: 16 behind 0x or 0X, 8 behind 0, and otherwise 10; and base 16 skips the
      same mark. */
  lemma {:induction false} PrefixTellsBase(val: U64, upper: bool)
    ensures var t := "0x" + Numeral(val, 16, upper); ParseUnsigned(t, 0, 0) == ParseUnsigned(t, 0, 16) == (val, |t|)
    ensures var t := "0X" + Numeral(val, 16, upper); ParseUnsigned(t, 0, 0) == ParseUnsigned(t, 0, 16) == (val, |t|)
    ensures var t := "0" + Numeral(val, 8, upper); ParseUnsigned(t, 0, 0) == (val, |t|)
    ensures var t := Numeral(val, 10, upper); ParseUnsigned(t, 0, 0) == (val, |t|)
  {
    NumeralParsed("0x", val, 16, upper);
    NumeralParsed("0X", val, 16, upper);
    OctalTellsBase(val, upper);
    DecimalTellsBase(val, upper);
  }

  lemma {:induction false} OctalTellsBase(val: U64, upper: bool)
    ensures var t := "0" + Numeral(val, 8, upper); ParseUnsigned(t, 0, 0) == (val, |t|)
  {
    NumeralParsed("0", val, 8, upper);
    NumeralValue(val, 8, upper);
    assert CharToDigit(Numeral(val, 8, upper)[0], 8) >= 0;
  }

  lemma {:induction false} DecimalTellsBase(val: U64, upper: bool)
    ensures var t := Numeral(val, 10, upper); ParseUnsigned(t, 0, 0) == (val, |t|)
  {
    var t := Numeral(val, 10, upper);
    NumeralParsed([], val, 10, upper);
    assert [] + t == t;
    NumeralValue(val, 10, upper);
    assert CharToDigit(t[0], 10) >= 0;
    FirstDigit(val, 10, upper);
  }

  /** Only the numeral of 0 begins with 0. */
  lemma {:induction false} FirstDigit(val: nat, base: nat, upper: bool)
    requires 2 <= base <= 16
    ensures Numeral(val, base, upper)[0] == '0' ==> val == 0 && Numeral(val, base, upper) == "0"
  {
    if val >= base {
      DivSmall(val, base);
      FirstDigit(val / base, base, upper);
    }
  }

  /** Any white space before a number is skipped, and so is a plus sign. */
  lemma {:induction false} SpaceSkipped(space: string, sign: string, val: U64, base: nat, upper: bool)
    requires 2 <= base <= 16 && sign in ["", "+"]
    requires forall c :: c in space ==> c in [' ', '\t', '\n', '\r', '\U{0C}', '\U{0B}']
    ensures var t := space + sign + Numeral(val, base, upper);
            ParseUnsigned(t, 0, base) == (val, |t|)
  {
    var number := Numeral(val, base, upper);
    var t := space + sign + number;
    NumeralParsed(space + sign, val, base, upper);
    NumeralValue(val, base, upper);
    assert CharToDigit(number[0], base) >= 0;
    assert t[|space|] == (sign + number)[0] && !IsSpace(t[|space|]);
    forall k | 0 <= k < |space| ensures IsSpace(t[k]) {
      assert t[k] == space[k] && space[k] in space;
    }
    SkipAll(t, 0, |space|);
    assert |number| > 1 ==> CharToDigit(number[1], base) >= 0;
  }

  lemma {:induction false} SkipAll(t: string, i: nat, n: nat)
    requires i <= n < |t| && !IsSpace(t[n]) && forall k :: i <= k < n ==> IsSpace(t[k])
    ensures SkipSpaces(t, i) == n
    decreases n - i
  {
    if i < n {
      SkipAll(t, i + 1, n);
    }
  }

  lemma {:induction false} ParsePositive(t: string, p: nat)
    requires SpacesThenDigits(t, 0, p, 10) && 0 <= Value(t[p..], 10) < TWO_63
    ensures ParseSigned(t, 10) == (Value(t[p..], 10), |t|)
  {
    SkipTo(t, 0, p, 10);
    assert CharToDigit(t[p], 10) >= 0;
    ParseDigits(t, p, p, 10);
    ModIs(Value(t[p..], 10), 0, Value(t[p..], 10), TWO_64);
  }

  lemma {:induction false} ParseNegative(t: string, p: nat)
    requires SpacesThenDigits(t, 1, p, 10) && t[0] == '-' && 0 <= Value(t[p..], 10) < TWO_63
    ensures ParseSigned(t, 10) == (-Value(t[p..], 10), |t|)
  {
    assert SkipSpaces(t, 0) == 0;
    ParseDigits(t, 1, p, 10);
    ModIs(Value(t[p..], 10), 0, Value(t[p..], 10), TWO_64);
  }

  /** strtol undoes the printing of every signed number above the least: also of a negative one with
      spaces between sign and digits. */
  lemma {:induction false} SignedRoundTrip(val: I64, width: int, fill: char)
    requires val > -TWO_63 && (fill == ' ' || fill == '0')
    ensures var t := SignedText(val, width, fill);
            ParseSigned(t, 10) == (val, |t|)
  {
    var t := SignedText(val, width, fill);
    if val < 0 {
      var p := TextIsDigits(['-'], -val, 10, false, if width > 0 then width - 1 else width, fill);
      ParseNegative(t, p);
    } else {
      var p := TextIsDigits([], val, 10, false, width, fill);
      assert [] + t == t;
      ParsePositive(t, p);
    }
  }

  // ----- through a buffer -----

  /** The characters before the first terminator. */
  function CString(s: seq<char>): (t: string)
    ensures |t| <= |s|
  {
    if s == [] || s[0] == '\0' then [] else [s[0]] + CString(s[1..])
  }

  lemma {:induction false} CStringIs(s: seq<char>, t: string)
    requires |t| < |s| && t <= s && s[|t|] == '\0' && '\0' !in t
    ensures CString(s) == t
  {
    if t != [] {
      assert s[0] == t[0];
      CStringIs(s[1..], t[1..]);
    }
  }

  lemma {:induction false} NoTerminator(pre: string, val: nat, base: nat, upper: bool, width: int, fill: char)
    requires 2 <= base <= 16 && (fill == ' ' || fill == '0') && '\0' !in pre
    ensures '\0' !in pre + UnsignedText(val, base, upper, width, fill)
  {
    hide UnsignedText;
    var t := pre + UnsignedText(val, base, upper, width, fill);
    var p := TextIsDigits(pre, val, base, upper, width, fill);
    forall k | 0 <= k < |t| ensures t[k] != '\0' {
      assert k < |pre| ==> t[k] == pre[k];
    }
  }

  lemma {:induction false} SignedNoTerminator(val: int, width: int, fill: char)
    requires fill == ' ' || fill == '0'
    ensures '\0' !in SignedText(val, width, fill)
  {
    if val < 0 {
      NoTerminator(['-'], -val, 10, false, if width > 0 then width - 1 else width, fill);
    } else {
      NoTerminator([], val, 10, false, width, fill);
      assert [] + UnsignedText(val, 10, false, width, fill) == UnsignedText(val, 10, false, width, fill);
    }
  }

  /** The end of vsnprintf: what the buffer holds as a string then. */
  method Terminate(buf: array<char>, written: nat, ghost text: string, ghost before: seq<char>)
    requires 0 < buf.Length && written == |Printed(text, buf.Length)| && '\0' !in text
    requires Wrote(buf[..], before, 0, Printed(text, buf.Length))
    modifies buf
    ensures CString(buf[..]) == Printed(text, buf.Length)
  {
    buf[written] := '\0';
    assert buf[..written] == Printed(text, buf.Length);
    CStringIs(buf[..], Printed(text, buf.Length));
  }

  /** Printing an unsigned number into a buffer and parsing the buffer gives the number back if the text
      fits, in every base that the digit buffer serves; the parser gets to the end of the whole text
      exactly if it fits. */
  method PrintThenParse(buf: array<char>, val: U64, base: nat, upper: bool, width: int, fill: char)
    returns (result: U64, end: nat)
    requires buf.Length > 0 && 10 <= base <= 16 && (fill == ' ' || fill == '0')
    modifies buf
    ensures var text := UnsignedText(val, base, upper, width, fill);
            && (end == |text| <==> |text| < buf.Length)
            && (|text| < buf.Length ==> result == val)
  {
    hide UnsignedText, Numeral, Fill;
    BufferSuffices(base, upper);
    ghost var text := UnsignedText(val, base, upper, width, fill);
    var written := FmtUint64(buf, 0, buf.Length, val, base, upper, width, fill);
    NoTerminator([], val, base, upper, width, fill);
    assert [] + text == text;
    Terminate(buf, written, text, old(buf[..]));
    UnsignedRoundTrip(val, base, upper, width, fill);
    result, end := Strtoul(CString(buf[..]), 0, base);
  }

  method PrintThenParseSigned(buf: array<char>, val: I64, width: int, fill: char) returns (result: int, end: nat)
    requires buf.Length > 0 && val > -TWO_63 && (fill == ' ' || fill == '0')
    modifies buf
    ensures var text := SignedText(val, width, fill);
            && (end == |text| <==> |text| < buf.Length)
            && (|text| < buf.Length ==> result == val)
  {
    hide SignedText;
    ghost var text := SignedText(val, width, fill);
    var written := FmtInt64(buf, 0, buf.Length, val, width, fill);
    SignedNoTerminator(val, width, fill);
    Terminate(buf, written, text, old(buf[..]));
    SignedRoundTrip(val, width, fill);
    result, end := Strtol(CString(buf[..]), 10);
  }
}
