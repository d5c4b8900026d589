/** strtol: what it reads of a string, and what number that is. */
module Strtol {
  import opened CTypes
  import opened Numerals
  import opened CStrings

  predicate IsBlank(c: char) { c == ' ' || c == '\t' }

  /** `s` starts with blanks up to `i`, an optional sign up to `j`, an optional prefix up to
      `k`, and digits of base `b` up to `e`; each part is as long as can be. */
  ghost predicate Reads(s: string, base: int, i: nat, j: nat, k: nat, e: nat, b: int) {
    && i <= j <= k <= e < |s|
    && (forall x :: 0 <= x < i ==> IsBlank(s[x])) && !IsBlank(s[i])
    && j == i + (if s[i] in {'+', '-'} then 1 else 0)
    && PrefixRule(base, s[j..], k - j, b)
    && (forall x :: k <= x < e ==> IsDigit(s[x], b)) && !IsDigit(s[e], b)
  }

  /** Base 0 and base 16 take a prefix `0x`, and base 0 takes a prefix `0` for octal. */
  predicate PrefixRule(base: int, t: string, n: nat, b: int) {
    if base in {0, 16} && |t| >= 2 && t[0] == '0' && t[1] == 'x' then n == 2 && b == 16
    else if base == 0 && |t| >= 1 && t[0] == '0' then n == 1 && b == 8
    else n == 0 && b == if base == 0 then 10 else base
  }

  /** What `strtol` finds: its sign, its base, and where its digits are. */
  datatype Scan = Scan(neg: bool, base: int, first: nat, end: nat)

  function BlankRun(s: string): (n: nat)
    ensures n <= |s| && forall i :: 0 <= i < n ==> IsBlank(s[i])
    ensures n < |s| ==> !IsBlank(s[n])
  {
    if s == "" || !IsBlank(s[0]) then 0 else 1 + BlankRun(s[1..])
  }

  function DigitRun(s: string, base: int): (n: nat)
    ensures n <= |s| && forall i :: 0 <= i < n ==> IsDigit(s[i], base)
    ensures n < |s| ==> !IsDigit(s[n], base)
  {
    if s == "" || !IsDigit(s[0], base) then 0 else 1 + DigitRun(s[1..], base)
  }

  /** The base and the position after an optional prefix at `i`. */
  function SkipPrefix(s: string, i: nat, base: int): (r: (int, nat))
    requires i < |s|
    requires s[i] == '0' ==> i + 1 < |s|
    ensures i <= r.1 <= |s|
  {
    if (base == 0 || base == 16) && s[i] == '0' && s[i + 1] == 'x' then (16, i + 2)
    else if base == 0 && s[i] == '0' then (8, i + 1)
    else if base == 0 then (10, i)
    else (base, i)
  }

  function ScanLong(s: string, base: int): (r: Scan)
    requires Terminated(s)
    ensures r.first <= r.end <= Length(s)
  {
    BlanksEnd(s);
    var i := BlankRun(s);
    var j := if s[i] == '+' || s[i] == '-' then i + 1 else i;
    var (b, k) := SkipPrefix(s, j, base);
    DigitsEnd(s, k, b);
    Scan(s[i] == '-', b, k, k + DigitRun(s[k..], b))
  }

  lemma BlanksEnd(s: string)
    requires Terminated(s)
    ensures BlankRun(s) <= Length(s)
  {
  }

  lemma DigitsEnd(s: string, k: nat, b: int)
    requires Terminated(s) && k <= Length(s)
    ensures k + DigitRun(s[k..], b) <= Length(s)
  {
  }

  /** The number the scanned digits denote. */
  function ScanValue(s: string, r: Scan): int
    requires r.first <= r.end <= |s|
  {
    var v := Horner(s[r.first..r.end], r.base);
    if r.neg then -v else v
  }

  /** The number that a string holds; it need not fit in a `long`. */
  function LongValue(s: string, base: int): int
    requires Terminated(s)
  {
    ScanValue(s, ScanLong(s, base))
  }

  /** `strtol`: the number modulo 2^64; overflow is not detected. */
  method Strtol(str: string, base: int32) returns (val: int64, endptr: nat)
    requires Terminated(str)
    ensures val == ToInt64(LongValue(str, base))
    ensures endptr == ScanLong(str, base).end
  {
    hide ScanLong, Horner, Length, ToInt64;
    var neg, b, s := ReadPrefix(str, base);
    ghost var scan := ScanLong(str, base);
    ScanIsMaximal(str, base);
    val, endptr := ReadDigits(str, s, b, scan);
    if neg {
      WrapNegation(Horner(str[s..endptr], b));
      val := NegateLong(val);
    }
  }

  /** Wrapping early makes no difference to a multiple and a sum. */
  lemma WrapStep(h: int, base: int, d: int)
    ensures ToInt64(ToInt64(h) * base + d) == ToInt64(h * base + d)
  {
    var q := WrapOf(h);
    assert (h - q * TWO_64) * base == h * base - (q * base) * TWO_64;
    WrapShift(h * base + d, q * base);
  }

  lemma WrapNegation(h: int)
    ensures NegateLong(ToInt64(h)) == ToInt64(-h)
  {
    var q := WrapOf(h);
    WrapShift(-h, -q);
  }

  lemma WrapOf(h: int) returns (q: int)
    ensures ToInt64(h) == h - q * TWO_64
  {
    q := h / TWO_64 + if h % TWO_64 <= LONG_MAX then 0 else 1;
  }

  lemma WrapShift(x: int, q: int)
    ensures ToInt64(x - q * TWO_64) == ToInt64(x)
  {
  }

  lemma ScanIsMaximal(s: string, base: int)
    requires Terminated(s)
    ensures var r := ScanLong(s, base);
      r.end == r.first + DigitRun(s[r.first..], r.base) && r.end <= Length(s)
  {
  }

  /** The blanks, the sign and the prefix. */
  method ReadPrefix(str: string, base0: int32) returns (neg: bool, base: int32, s: nat)
    requires Terminated(str)
    ensures var r := ScanLong(str, base0); neg == r.neg && base == r.base && s == r.first
  {
    hide BlankRun, DigitRun, Length;
    neg, base := false, base0;
    BlanksEnd(str);
    s := SkipBlanks(str);
    if str[s] == '+' {
      s := s + 1;
    } else if str[s] == '-' {
      s, neg := s + 1, true;
    }
    if (base == 0 || base == 16) && str[s] == '0' && str[s + 1] == 'x' {
      s, base := s + 2, 16;
    } else if base == 0 && str[s] == '0' {
      s, base := s + 1, 8;
    } else if base == 0 {
      base := 10;
    }
  }

  method SkipBlanks(str: string) returns (s: nat)
    requires Terminated(str)
    ensures s == BlankRun(str)
  {
    hide BlankRun;
    BlanksEnd(str);
    s := 0;
    while str[s] == ' ' || str[s] == '\t'
      invariant 0 <= s <= BlankRun(str)
      decreases |str| - s
    {
      s := s + 1;
    }
  }

  /** The digit loop. */
  method ReadDigits(str: string, start: nat, base: int32, ghost scan: Scan) returns (val: int64, s: nat)
    requires Terminated(str) && scan.first == start <= Length(str) && scan.base == base
    requires scan.end == start + DigitRun(str[start..], base)
    ensures s == scan.end && val == ToInt64(Horner(str[start..scan.end], base))
  {
    hide Horner, DigitRun, ToInt64;
    ghost var digits := str[start..scan.end];
    DigitsEnd(str, start, base);
    assert forall i :: 0 <= i < |digits| ==> digits[i] == str[start..][i];
    HornerEmpty(digits, base);
    s, val := start, 0;
    while true
      invariant start <= s <= scan.end && val == ToInt64(Horner(digits[..s - start], base))
      decreases |str| - s
    {
      var dig: int;
      assert s < scan.end ==> digits[s - start] == str[s];
      assert s == scan.end ==> str[start..][s - start] == str[s];
      if '0' <= str[s] <= '9' {
        dig := str[s] as int - '0' as int;
      } else if 'a' <= str[s] <= 'z' {
        dig := str[s] as int - 'a' as int + 10;
      } else if 'A' <= str[s] <= 'Z' {
        dig := str[s] as int - 'A' as int + 10;
      } else {
        break;
      }
      if dig >= base {
        break;
      }
      DigitStep(digits, s - start, base);
      WrapStep(Horner(digits[..s - start], base), base, dig);
      val := ToInt64(val * base + dig);
      s := s + 1;
    }
    assert digits[..scan.end - start] == digits;
  }

  lemma HornerEmpty(s: string, base: int)
    ensures Horner(s[..0], base) == 0 == ToInt64(0)
  {
  }

  lemma DigitStep(s: string, k: nat, base: int)
    requires k < |s|
    ensures Horner(s[..k + 1], base) == Horner(s[..k], base) * base + DigitValue(s[k])
  {
    HornerAppend(s[..k], s[k], base);
    assert s[..k] + [s[k]] == s[..k + 1];
  }
}
