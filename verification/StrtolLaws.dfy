/** What `strtol` reads is the one way to split a string into blanks, sign, prefix and digits. */
module StrtolLaws {
  import opened CTypes
  import opened Numerals
  import opened CStrings
  import opened Strtol

  /** The steps of a scan. */
  lemma ScanSteps(s: string, base: int) returns (i: nat, j: nat)
    requires Terminated(s)
    ensures var r := ScanLong(s, base);
      && i == BlankRun(s) && i <= j <= r.first <= r.end < |s|
      && j == (if s[i] == '+' || s[i] == '-' then i + 1 else i)
      && r.neg == (s[i] == '-')
      && (s[j] == '0' ==> j + 1 < |s|)
      && SkipPrefix(s, j, base) == (r.base, r.first)
      && r.end == r.first + DigitRun(s[r.first..], r.base)
  {
    hide BlankRun, DigitRun, Length, SkipPrefix, IsBlank, IsDigit;
    BlanksEnd(s);
    i := BlankRun(s);
    j := if s[i] == '+' || s[i] == '-' then i + 1 else i;
  }

  lemma PrefixIs(s: string, j: nat, base: int)
    requires j < |s| && (s[j] == '0' ==> j + 1 < |s|)
    ensures var (b, k) := SkipPrefix(s, j, base); PrefixRule(base, s[j..], k - j, b)
  {
  }

  /** What `strtol` scans is a split. */
  lemma ScanReads(s: string, base: int) returns (i: nat, j: nat)
    requires Terminated(s)
    ensures var r := ScanLong(s, base);
      Reads(s, base, i, j, r.first, r.end, r.base) && r.neg == (s[i] == '-')
  {
    hide BlankRun, DigitRun, SkipPrefix, PrefixRule, ScanLong, Length, IsDigit;
    i, j := ScanSteps(s, base);
    PrefixIs(s, j, base);
    var r := ScanLong(s, base);
    DigitsAt(s, r.first, r.base);
    assert s[i] == '-' ==> s[i] in {'+', '-'};
  }

  lemma DigitsAt(s: string, k: nat, b: int)
    requires k <= |s|
    ensures var e := k + DigitRun(s[k..], b);
      (forall x :: k <= x < e ==> IsDigit(s[x], b)) && (e < |s| ==> !IsDigit(s[e], b))
  {
  }

  /** There is no other split. */
  lemma ReadsUnique(s: string, base: int, i: nat, j: nat, k: nat, e: nat, b: int)
    requires Terminated(s) && Reads(s, base, i, j, k, e, b)
    ensures ScanLong(s, base) == Scan(s[i] == '-', b, k, e)
  {
    hide BlankRun, DigitRun, SkipPrefix, PrefixRule, ScanLong;
    var i', j' := ScanReads(s, base);
    var r := ScanLong(s, base);
    assert i' == i;
    SamePrefix(base, s[j..], k - j, b, r.first - j, r.base);
  }

  lemma SamePrefix(base: int, t: string, n: nat, b: int, n': nat, b': int)
    requires PrefixRule(base, t, n, b) && PrefixRule(base, t, n', b')
    ensures n == n' && b == b'
  {
  }

  // ------------------------------------------------------- what a text means

  const LOWER := "0123456789abcdefghijklmnopqrstuvwxyz"
  const UPPER := "0123456789ABCDEFGHIJKLMNOPQRSTUVWXYZ"

  /** The digits are those of the two alphabets, and no other characters. */
  lemma DigitIs(c: char, d: int)
    requires 0 <= d < 36
    ensures DigitValue(c) == d <==> c == LOWER[d] || c == UPPER[d]
  {
    if d < 10 {
      Decimals(d);
    } else if d < 23 {
      FirstLetters(d);
    } else {
      LastLetters(d);
    }
  }

  lemma Decimals(d: int)
    requires 0 <= d < 10
    ensures LOWER[d] == UPPER[d] == ('0' as int + d) as char
  {
  }

  lemma FirstLetters(d: int)
    requires 10 <= d < 23
    ensures LOWER[d] == ('a' as int + (d - 10)) as char && UPPER[d] == ('A' as int + (d - 10)) as char
  {
  }

  lemma LastLetters(d: int)
    requires 23 <= d < 36
    ensures LOWER[d] == ('a' as int + (d - 10)) as char && UPPER[d] == ('A' as int + (d - 10)) as char
  {
  }

  lemma DigitBelow36(c: char)
    ensures -1 <= DigitValue(c) < 36
  {
  }

  /** `c` is not one of the first `b` digits. */
  ghost predicate NoDigit(c: char, b: int) {
    forall d :: 0 <= d < 36 && d < b ==> c != LOWER[d] && c != UPPER[d]
  }

  lemma NoDigitIs(c: char, b: int)
    requires NoDigit(c, b)
    ensures !IsDigit(c, b)
  {
    hide LOWER, UPPER, DigitValue;
    DigitBelow36(c);
    if IsDigit(c, b) {
      DigitIs(c, DigitValue(c));
    }
  }

  /** `digits` is a way to write the digits `ds` of base `b`, with letters of either case. */
  ghost predicate Writes(digits: string, ds: seq<int>, b: int) {
    |digits| == |ds| && forall i :: 0 <= i < |ds| ==>
      0 <= ds[i] < 36 && ds[i] < b && (digits[i] == LOWER[ds[i]] || digits[i] == UPPER[ds[i]])
  }

  function Power(b: int, k: nat): int { if k == 0 then 1 else b * Power(b, k - 1) }

  /** Each digit counts as many times as its place says. */
  function PlaceValue(ds: seq<int>, b: int): int {
    if ds == [] then 0 else ds[0] * Power(b, |ds| - 1) + PlaceValue(ds[1..], b)
  }

  lemma {:induction false} HornerFirst(c: char, s: string, b: int)
    ensures Horner([c] + s, b) == DigitValue(c) * Power(b, |s|) + Horner(s, b)
  {
    if s == "" {
      assert [c] + s == [c];
      HornerSingle(c, b);
    } else {
      var front, d := s[..|s| - 1], DigitValue(s[|s| - 1]);
      HornerFirst(c, front, b);
      assert [c] + s == ([c] + front) + [s[|s| - 1]];
      HornerAppend([c] + front, s[|s| - 1], b);
      Distribute(DigitValue(c), Power(b, |front|), Horner(front, b), b);
    }
  }

  lemma Distribute(v: int, p: int, h: int, b: int)
    ensures (v * p + h) * b == v * (b * p) + h * b
  {
  }

  lemma {:induction false} WritesValue(digits: string, ds: seq<int>, b: int)
    requires Writes(digits, ds, b)
    ensures Horner(digits, b) == PlaceValue(ds, b) && forall i :: 0 <= i < |digits| ==> IsDigit(digits[i], b)
  {
    hide LOWER, UPPER, DigitValue, Horner;
    if ds == [] {
      HornerNothing(digits, b);
    } else {
      DigitIs(digits[0], ds[0]);
      WritesValue(digits[1..], ds[1..], b);
      assert digits == [digits[0]] + digits[1..];
      HornerFirst(digits[0], digits[1..], b);
    }
  }

  lemma HornerNothing(s: string, b: int)
    requires s == ""
    ensures Horner(s, b) == 0
  {
  }

  /** The prefixes that set the base of what follows them. */
  predicate Prefixed(base: int, prefix: string, b: int, tail: string) {
    || ((base == 0 || base == 16) && prefix == "0x" && b == 16)
    || (base == 0 && prefix == "0" && b == 8 && !(tail != "" && tail[0] == 'x'))
    || (base == 0 && prefix == "" && b == 10 && !(tail != "" && tail[0] == '0'))
    || (base != 0 && prefix == "" && b == base && !(base == 16 && |tail| >= 2 && tail[0] == '0' && tail[1] == 'x'))
  }

  lemma PrefixedRule(base: int, prefix: string, b: int, tail: string)
    requires Prefixed(base, prefix, b, tail)
    ensures PrefixRule(base, prefix + tail, |prefix|, b)
  {
    var t := prefix + tail;
    assert prefix == "" ==> t == tail;
    assert prefix != "" ==> t[0] == prefix[0] == '0';
    assert prefix == "0" && tail != "" ==> t[1] == tail[0];
  }

  /** Blanks up to `i`, a sign up to `j`, a prefix up to `k` and digits in either case up to
      `e`, where there is no digit: `strtol` stops there, with the number the digits denote. */
  lemma TextMeans(s: string, i: nat, j: nat, k: nat, e: nat, base: int, b: int, ds: seq<int>)
    requires i <= j <= k <= e < |s| && '\0' in s
    requires forall x :: 0 <= x < i ==> s[x] == ' ' || s[x] == '\t'
    requires s[i..j] == "" || s[i..j] == "+" || s[i..j] == "-"
    requires Prefixed(base, s[j..k], b, s[k..]) && Writes(s[k..e], ds, b) && NoDigit(s[e], b)
    requires i == e ==> s[e] != ' ' && s[e] != '\t' && s[e] != '+' && s[e] != '-'
    ensures Terminated(s) && ScanLong(s, base).end == e
    ensures LongValue(s, base) == if s[i..j] == "-" then -PlaceValue(ds, b) else PlaceValue(ds, b)
  {
    hide ScanLong, Prefixed, NoDigit, Writes, IsDigit, Horner, Reads;
    TextReads(s, i, j, k, e, base, b, ds);
    WritesValue(s[k..e], ds, b);
    ReadsUnique(s, base, i, j, k, e, b);
  }

  lemma TextReads(s: string, i: nat, j: nat, k: nat, e: nat, base: int, b: int, ds: seq<int>)
    requires i <= j <= k <= e < |s|
    requires forall x :: 0 <= x < i ==> s[x] == ' ' || s[x] == '\t'
    requires s[i..j] == "" || s[i..j] == "+" || s[i..j] == "-"
    requires Prefixed(base, s[j..k], b, s[k..]) && Writes(s[k..e], ds, b) && NoDigit(s[e], b)
    requires i == e ==> s[e] != ' ' && s[e] != '\t' && s[e] != '+' && s[e] != '-'
    ensures Reads(s, base, i, j, k, e, b) && (s[i] == '-' <==> s[i..j] == "-")
  {
    hide PrefixRule, Prefixed, NoDigit, Writes, IsDigit, Horner, IsBlank;
    PrefixedRule(base, s[j..k], b, s[k..]);
    assert s[j..k] + s[k..] == s[j..];
    DigitsOf(s, k, e, ds, b);
    NoDigitIs(s[e], b);
    FirstIsNoBlank(s, i, j, k, e, base, b, ds);
    BlanksAre(s, i);
  }

  lemma DigitsOf(s: string, k: nat, e: nat, ds: seq<int>, b: int)
    requires k <= e <= |s| && Writes(s[k..e], ds, b)
    ensures forall x :: k <= x < e ==> IsDigit(s[x], b)
  {
    hide Writes, IsDigit, Horner;
    WritesValue(s[k..e], ds, b);
    assert forall x :: k <= x < e ==> s[x] == s[k..e][x - k];
  }

  lemma BlanksAre(s: string, i: nat)
    requires i <= |s| && forall x :: 0 <= x < i ==> s[x] == ' ' || s[x] == '\t'
    ensures forall x :: 0 <= x < i ==> IsBlank(s[x])
  {
  }

  /** What follows the blanks is no blank, and a sign only if it is the sign. */
  lemma FirstIsNoBlank(s: string, i: nat, j: nat, k: nat, e: nat, base: int, b: int, ds: seq<int>)
    requires i <= j <= k <= e < |s|
    requires s[i..j] == "" || s[i..j] == "+" || s[i..j] == "-"
    requires Prefixed(base, s[j..k], b, s[k..]) && Writes(s[k..e], ds, b)
    requires i == e ==> s[e] != ' ' && s[e] != '\t' && s[e] != '+' && s[e] != '-'
    ensures !IsBlank(s[i]) && (s[i] == '-' <==> s[i..j] == "-")
    ensures j == i + if s[i] in {'+', '-'} then 1 else 0
  {
    hide LOWER, UPPER;
    if i < j {
      assert s[i..j][0] == s[i];
    } else if j < k {
      assert s[j..k][0] == s[i];
    } else if k < e {
      assert s[k..e][0] == s[i];
      DigitIs(s[i], ds[0]);
    }
  }
}
