/** The parts of Go's strconv and of 64-bit `int` arithmetic that the HTTP handlers rely on:
    Atoi (whose error the pagination code ignores, so its value on error matters),
    ParseUint(s, 10, 32) for path IDs, and two's-complement wrap-around. */
module Strconv {
  import opened Errors

  const MAX_INT64: int := 0x7fff_ffff_ffff_ffff
  const MIN_INT64: int := -0x8000_0000_0000_0000
  const MAX_UINT64: int := 0xffff_ffff_ffff_ffff
  const MAX_UINT32: int := 0xffff_ffff
  const TWO_64: int := 0x1_0000_0000_0000_0000

  /** Go's `int` on a 64-bit platform. */
  type Int64 = x: int | MIN_INT64 <= x <= MAX_INT64

  /** The 64-bit two's-complement value an exact integer result wraps to. */
  function Wrap64(x: int): (r: Int64)
    ensures MIN_INT64 <= x <= MAX_INT64 ==> r == x
    ensures (x - r) % TWO_64 == 0
  {
    (x - MIN_INT64) % TWO_64 + MIN_INT64
  }

  /** Congruence modulo 2^64 survives multiplying both sides by the same factor. */
  lemma ScaleCongruence(a: int, b: int, c: int)
    requires (a - b) % TWO_64 == 0
    ensures (a * c - b * c) % TWO_64 == 0
  {
    var k := (a - b) / TWO_64;
    assert a - b == k * TWO_64;
    assert a * c - b * c == (a - b) * c == (k * c) * TWO_64;
  }

  /** Congruence modulo 2^64 is transitive. */
  lemma ChainCongruence(a: int, b: int, c: int)
    requires (a - b) % TWO_64 == 0 && (b - c) % TWO_64 == 0
    ensures (a - c) % TWO_64 == 0
  {
    var k, l := (a - b) / TWO_64, (b - c) / TWO_64;
    assert a - b == k * TWO_64 && b - c == l * TWO_64;
    assert a - c == (k + l) * TWO_64;
  }

  /** Multiplying by a non-negative factor keeps the order. */
  lemma MultiplyOrdered(a: int, b: int, p: int)
    requires a <= b && p >= 0
    ensures a * p <= b * p
  {
  }

  predicate IsDigit(c: char) {
    '0' <= c <= '9'
  }

  predicate AllDigits(s: string) {
    forall i | 0 <= i < |s| :: IsDigit(s[i])
  }

  function DigitValue(c: char): nat
    requires IsDigit(c)
  {
    c as int - '0' as int
  }

  function DigitChar(d: nat): (c: char)
    requires d < 10
    ensures IsDigit(c) && DigitValue(c) == d
  {
    ('0' as int + d) as char
  }

  /** The digits of `s` read left to right onto an accumulated value, as strconv's loop does. */
  function Accumulate(acc: nat, s: string): nat
    requires AllDigits(s)
    decreases |s|
  {
    if s == [] then acc else Accumulate(10 * acc + DigitValue(s[0]), s[1..])
  }

  /** The decimal value of a string of digits. */
  function Value(s: string): nat
    requires AllDigits(s)
  {
    Accumulate(0, s)
  }

  lemma {:induction false} AccumulateGrows(acc: nat, s: string)
    requires AllDigits(s)
    ensures Accumulate(acc, s) >= acc
    decreases |s|
  {
    if s != [] {
      AccumulateGrows(10 * acc + DigitValue(s[0]), s[1..]);
    }
  }

  /** Appending a digit multiplies the value read so far by ten and adds the digit. */
  lemma {:induction false} AccumulateSnoc(acc: nat, s: string, c: char)
    requires AllDigits(s) && IsDigit(c)
    ensures AllDigits(s + [c])
    ensures Accumulate(acc, s + [c]) == 10 * Accumulate(acc, s) + DigitValue(c)
    decreases |s|
  {
    if s == [] {
      assert [c][1..] == [];
    } else {
      assert (s + [c])[1..] == s[1..] + [c];
      AccumulateSnoc(10 * acc + DigitValue(s[0]), s[1..], c);
    }
  }

  /** The decimal text of `n`, without leading zeros (strconv.FormatUint(n, 10)). */
  function Decimal(n: nat): (s: string)
    ensures |s| >= 1 && AllDigits(s)
    ensures n > 0 ==> s[0] != '0'
  {
    if n < 10 then [DigitChar(n)] else Decimal(n / 10) + [DigitChar(n % 10)]
  }

  /** Reading back the decimal text of a number gives the number. */
  lemma {:induction false} ValueOfDecimal(n: nat)
    ensures Value(Decimal(n)) == n
  {
    if n < 10 {
      assert Decimal(n)[1..] == [];
      assert Accumulate(DigitValue(DigitChar(n)), []) == n;
    } else {
      ValueOfDecimal(n / 10);
      AccumulateSnoc(0, Decimal(n / 10), DigitChar(n % 10));
    }
  }

  /** The longest prefix of `s` made of digits only. */
  function LeadingDigits(s: string): (d: string)
    ensures d <= s && AllDigits(d)
    ensures |d| < |s| ==> !IsDigit(s[|d|])
  {
    if s != [] && IsDigit(s[0]) then [s[0]] + LeadingDigits(s[1..]) else []
  }

  /** strconv.ParseUint's digit loop for a bit size whose largest value is `bound`:
      a non-digit is a syntax error and passing `bound` a range error (both None here). */
  function ScanUint(acc: nat, s: string, bound: nat): Option<nat>
    requires acc <= bound
    decreases |s|
  {
    if s == [] then Some(acc)
    else if !IsDigit(s[0]) then None
    else
      var n := 10 * acc + DigitValue(s[0]);
      if n > bound then None else ScanUint(n, s[1..], bound)
  }

  /** The digit loop accepts exactly the digit strings whose value stays within the bound. */
  lemma {:induction false} ScanUintAccepts(acc: nat, s: string, bound: nat)
    requires acc <= bound
    ensures ScanUint(acc, s, bound).Some? <==> AllDigits(s) && Accumulate(acc, s) <= bound
    ensures ScanUint(acc, s, bound).Some? ==> ScanUint(acc, s, bound).value == Accumulate(acc, s)
    decreases |s|
  {
    if s != [] {
      if IsDigit(s[0]) {
        var n := 10 * acc + DigitValue(s[0]);
        assert AllDigits(s) <==> AllDigits(s[1..]) by {
          if AllDigits(s[1..]) {
            forall i | 0 <= i < |s| ensures IsDigit(s[i]) {
              if i > 0 { assert s[i] == s[1..][i - 1]; }
            }
          }
        }
        if AllDigits(s) {
          AccumulateGrows(n, s[1..]);
        }
        if n <= bound {
          ScanUintAccepts(n, s[1..], bound);
        }
      }
    }
  }

  /** strconv.ParseUint(s, 10, 32): accepted exactly when `s` is a non-empty string of
      digits (no sign, no underscore) whose value fits in 32 bits. */
  function ParseUint32(s: string): (r: Option<nat>)
    ensures r.Some? <==> s != [] && AllDigits(s) && Value(s) <= MAX_UINT32
    ensures r.Some? ==> r.value == Value(s)
  {
    ScanUintAccepts(0, s, MAX_UINT32);
    if s == [] then None else ScanUint(0, s, MAX_UINT32)
  }

  /** Every 32-bit ID written in decimal parses back to itself. */
  lemma ParseUint32OfDecimal(n: nat)
    requires n <= MAX_UINT32
    ensures ParseUint32(Decimal(n)) == Some(n)
  {
    ValueOfDecimal(n);
  }

  /** The text after an optional leading sign. */
  function Unsigned(s: string): string {
    if |s| > 0 && (s[0] == '-' || s[0] == '+') then s[1..] else s
  }

  /** strconv.Atoi on a 64-bit platform: the value it returns, and whether its error is nil.
      A syntax error returns 0; a range error returns the int64 bound on the side of the sign.
      As in strconv, a range error is reported as soon as the leading digits pass the largest
      uint64, before any later non-digit is seen. */
  function Atoi(s: string): (r: (Int64, bool))
    ensures r.1 <==> Unsigned(s) != [] && AllDigits(Unsigned(s))
                     && (if |s| > 0 && s[0] == '-' then Value(Unsigned(s)) <= -MIN_INT64
                         else Value(Unsigned(s)) <= MAX_INT64)
    ensures r.1 ==> r.0 == if |s| > 0 && s[0] == '-' then 0 - Value(Unsigned(s)) as int else Value(Unsigned(s))
    ensures !r.1 ==> r.0 == 0 || r.0 == MAX_INT64 || r.0 == MIN_INT64
    ensures (Unsigned(s) == [] || !AllDigits(Unsigned(s))) && Value(LeadingDigits(Unsigned(s))) <= MAX_UINT64 ==>
      r == (0, false)
    ensures !r.1 && !((Unsigned(s) == [] || !AllDigits(Unsigned(s))) && Value(LeadingDigits(Unsigned(s))) <= MAX_UINT64) ==>
      r.0 == (if |s| > 0 && s[0] == '-' then MIN_INT64 else MAX_INT64)
  {
    var neg := |s| > 0 && s[0] == '-';
    var u := Unsigned(s);
    var d := LeadingDigits(u);
    assert AllDigits(u) ==> d == u;
    if Value(d) > MAX_UINT64 then (if neg then MIN_INT64 else MAX_INT64, false)
    else if u == [] || d != u then (0, false)
    else if !neg && Value(u) > MAX_INT64 then (MAX_INT64, false)
    else if neg && Value(u) > -MIN_INT64 then (MIN_INT64, false)
    else (if neg then 0 - Value(u) as int else Value(u), true)
  }

  /** Atoi reads back every int64 written in decimal, with or without a minus sign. */
  lemma AtoiOfDecimal(n: nat)
    ensures n <= MAX_INT64 ==> Atoi(Decimal(n)) == (n, true)
    ensures n <= -MIN_INT64 ==> Atoi("-" + Decimal(n)) == (0 - n as int, true)
  {
    ValueOfDecimal(n);
    assert Unsigned("-" + Decimal(n)) == Decimal(n);
  }
}
