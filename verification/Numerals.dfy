/** Positional notation: the digit strings that `printnum` writes and `strtol` reads. */
module Numerals {
  import opened CTypes

  /** The character of a digit: decimal digits, then lower-case letters. */
  function DigitChar(d: int): (c: char)
    requires 0 <= d < 16
    ensures DigitValue(c) == d && !('A' <= c <= 'Z')
  {
    if d < 10 then ('0' as int + d) as char else ('a' as int + (d - 10)) as char
  }

  /** The table `printnum` indexes holds exactly these characters. */
  lemma DigitTable(d: int)
    requires 0 <= d < 16
    ensures "0123456789abcdef"[d] == DigitChar(d)
  {
  }

  /** The digit value `strtol` gives a character, or -1 for a character that is no digit. */
  function DigitValue(c: char): int {
    if '0' <= c <= '9' then c as int - '0' as int
    else if 'a' <= c <= 'z' then c as int - 'a' as int + 10
    else if 'A' <= c <= 'Z' then c as int - 'A' as int + 10
    else -1
  }

  predicate IsDigit(c: char, base: int) {
    0 <= DigitValue(c) < base
  }

  predicate AllDigits(s: string, base: int) {
    forall i :: 0 <= i < |s| ==> IsDigit(s[i], base)
  }

  /** The number a digit string denotes. */
  function Horner(s: string, base: int): int {
    if s == "" then 0 else Horner(s[..|s| - 1], base) * base + DigitValue(s[|s| - 1])
  }

  /** `s` is the shortest way to write a number with the digits `printnum` uses. */
  predicate Canonical(s: string, base: int) {
    && s != ""
    && AllDigits(s, base)
    && (forall i :: 0 <= i < |s| ==> !('A' <= s[i] <= 'Z'))
    && (s[0] == '0' ==> |s| == 1)
  }

  lemma MulMonotone(a: int, b: int, c: int)
    requires a <= b && 0 <= c
    ensures a * c <= b * c
  {
  }

  lemma QuotientShrinks(n: int, base: int)
    requires 2 <= base <= n
    ensures 0 < n / base < n
  {
  }

  function Numeral(n: nat, base: int): (s: string)
    requires 2 <= base <= 16
    ensures s != ""
    decreases n
  {
    if n < base then
      [DigitChar(n)]
    else
      QuotientShrinks(n, base);
      Numeral(n / base, base) + [DigitChar(n % base)]
  }

  /** The numeral of `n` is canonical: digits of the base only, and a leading zero only for zero. */
  lemma {:induction false} NumeralCanonical(n: nat, base: int)
    requires 2 <= base <= 16
    ensures Canonical(Numeral(n, base), base)
    ensures Numeral(n, base)[0] == '0' ==> n == 0
    decreases n
  {
    if n >= base {
      QuotientShrinks(n, base);
      NumeralCanonical(n / base, base);
    }
  }

  /** The numeral of `n` denotes `n`. */
  lemma {:induction false} NumeralValue(n: nat, base: int)
    requires 2 <= base <= 16
    ensures Horner(Numeral(n, base), base) == n
    decreases n
  {
    if n < base {
      HornerSingle(DigitChar(n), base);
    } else {
      var q, r := Divide(n, base);
      NumeralValue(q, base);
      HornerAppend(Numeral(q, base), DigitChar(r), base);
    }
  }

  lemma Divide(n: nat, base: int) returns (q: nat, r: nat)
    requires 2 <= base <= n
    ensures q == n / base && r == n % base
    ensures q < n && r < base && q * base + r == n
  {
    QuotientShrinks(n, base);
    q, r := n / base, n % base;
  }

  lemma HornerAppend(s: string, c: char, base: int)
    ensures Horner(s + [c], base) == Horner(s, base) * base + DigitValue(c)
  {
  }

  lemma HornerSingle(c: char, base: int)
    ensures Horner([c], base) == DigitValue(c)
  {
  }

  lemma {:induction false} HornerBounds(s: string, base: int)
    requires 1 <= base && AllDigits(s, base)
    ensures 0 <= Horner(s, base)
    ensures s != "" ==> Horner(s[..|s| - 1], base) <= Horner(s, base)
  {
    if s != "" {
      HornerBounds(s[..|s| - 1], base);
      MulMonotone(1, base, Horner(s[..|s| - 1], base));
    }
  }

  /** A prefix of a digit string denotes no more than the whole. */
  lemma {:induction false} HornerPrefix(s: string, k: nat, base: int)
    requires 1 <= base && AllDigits(s, base) && k <= |s|
    ensures 0 <= Horner(s[..k], base) <= Horner(s, base)
    decreases |s|
  {
    HornerBounds(s, base);
    if k < |s| {
      HornerPrefix(s[..|s| - 1], k, base);
      assert s[..|s| - 1][..k] == s[..k];
    } else {
      assert s[..k] == s;
    }
  }

  /** A canonical digit string of two or more digits denotes at least `base`. */
  lemma {:induction false} LongNumeralIsLarge(s: string, base: int)
    requires 2 <= base && Canonical(s, base) && |s| >= 2
    ensures Horner(s, base) >= base
  {
    var high := s[..|s| - 1];
    if |high| >= 2 {
      LongNumeralIsLarge(high, base);
    } else {
      HornerSingle(s[0], base);
      assert high == [s[0]];
    }
    MulMonotone(1, Horner(high, base), base);
  }

  /** The numeral is the only canonical digit string of its number. */
  lemma {:induction false} NumeralUnique(s: string, base: int)
    requires 2 <= base <= 16 && Canonical(s, base)
    ensures Horner(s, base) >= 0
    ensures s == Numeral(Horner(s, base), base)
  {
    hide Horner, Numeral, Canonical;
    var high, d := LastDigit(s, base);
    HornerAppend(high, DigitChar(d), base);
    if |s| == 1 {
      NumeralUniqueDigit(d, base);
    } else {
      NumeralUnique(high, base);
      LongNumeralIsLarge(s, base);
      NumeralAppend(Horner(high, base), d, base);
    }
  }

  /** The last digit of a canonical digit string, and the digits before it. */
  lemma LastDigit(s: string, base: int) returns (high: string, d: int)
    requires 2 <= base <= 16 && Canonical(s, base)
    ensures 0 <= d < base && s == high + [DigitChar(d)]
    ensures high == s[..|s| - 1] && (|s| >= 2 ==> Canonical(high, base))
  {
    high, d := s[..|s| - 1], DigitValue(s[|s| - 1]);
    assert IsDigit(s[|s| - 1], base);
    DigitOfValue(s[|s| - 1]);
  }

  lemma DigitOfValue(c: char)
    requires 0 <= DigitValue(c) < 16 && !('A' <= c <= 'Z')
    ensures DigitChar(DigitValue(c)) == c
  {
  }

  lemma NumeralUniqueDigit(d: int, base: int)
    requires 2 <= base <= 16 && 0 <= d < base
    ensures Numeral(d, base) == [DigitChar(d)] && Horner("", base) == 0
  {
  }

  /** One more digit. */
  lemma NumeralAppend(q: nat, d: int, base: int)
    requires 2 <= base <= 16 && 0 <= d < base <= q * base + d
    ensures Numeral(q * base + d, base) == Numeral(q, base) + [DigitChar(d)]
  {
    DivMod(q, d, base);
  }

  lemma DivMod(q: int, r: int, base: int)
    requires 0 <= r < base
    ensures (q * base + r) / base == q && (q * base + r) % base == r
  {
    var n := q * base + r;
    var q', r' := n / base, n % base;
    assert (q - q') * base == r' - r;
    if q > q' {
      MulMonotone(1, q - q', base);
    } else if q < q' {
      MulMonotone(1, q' - q, base);
    }
  }

  /** Leading zeros do not change the number. */
  lemma {:induction false} LeadingZeros(k: int, s: string, base: int)
    requires 2 <= base
    ensures Horner(Repeat('0', k) + s, base) == Horner(s, base)
    decreases |s|, k
  {
    var t := Repeat('0', k) + s;
    if s != "" {
      LeadingZeros(k, s[..|s| - 1], base);
      assert t[..|t| - 1] == Repeat('0', k) + s[..|s| - 1];
    } else if k > 0 {
      LeadingZeros(k - 1, s, base);
      assert t[..|t| - 1] == Repeat('0', k - 1) + s;
    }
  }

  function Pow2(k: nat): nat { if k == 0 then 1 else 2 * Pow2(k - 1) }

  /** A number of `k` bits has at most `k` digits. */
  lemma {:induction false} NumeralLength(n: nat, base: int, k: nat)
    requires 2 <= base <= 16 && 1 <= k && n < Pow2(k)
    ensures |Numeral(n, base)| <= k
    decreases k
  {
    if n >= base {
      QuotientShrinks(n, base);
      var q, r := Divide(n, base);
      MulMonotone(2, base, q);
      NumeralLength(q, base, k - 1);
    }
  }

  lemma Pow2Byte(k: nat)
    ensures Pow2(k + 8) == 256 * Pow2(k)
  {
    assert Pow2(k + 8) == 2 * Pow2(k + 7) == 4 * Pow2(k + 6) == 8 * Pow2(k + 5) == 16 * Pow2(k + 4);
    assert Pow2(k + 4) == 2 * Pow2(k + 3) == 4 * Pow2(k + 2) == 8 * Pow2(k + 1) == 16 * Pow2(k);
  }

  lemma Pow2Is64()
    ensures Pow2(64) == TWO_64
  {
    Pow2Byte(0);
    Pow2Byte(8);
    Pow2Byte(16);
    Pow2Byte(24);
    Pow2Byte(32);
    Pow2Byte(40);
    Pow2Byte(48);
    Pow2Byte(56);
  }

  /** No 64-bit number has more than 64 digits. */
  lemma NumeralAtMost64(n: uint64, base: int)
    requires 2 <= base <= 16
    ensures |Numeral(n, base)| <= 64
  {
    Pow2Is64();
    NumeralLength(n, base, 64);
  }
}
