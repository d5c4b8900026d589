/** When `strtol` reads back the number that a conversion printed. */
module RoundTrip {
  import opened CTypes
  import opened Numerals
  import opened Format
  import opened FormatLaws
  import opened ModifierLaws
  import opened ConversionLaws
  import opened CStrings
  import opened Strtol
  import opened StrtolLaws
  import opened Printf

  // ------------------------------------------------- reading a printed field

  /** Blanks, a sign and digits up to the NUL: all of them are read. */
  lemma ReadsAll(s: string, i: nat, j: nat, e: nat, b: int)
    requires 2 <= b <= 16 && i <= j < e < |s| && s[e] == '\0'
    requires forall x :: 0 <= x < i ==> IsBlank(s[x])
    requires forall x :: j <= x < e ==> IsDigit(s[x], b)
    requires j == i + (if s[i] in {'+', '-'} then 1 else 0)
    ensures Terminated(s) && ScanLong(s, b) == Scan(s[i] == '-', b, j, e)
  {
    assert IsDigit(s[j], b);
    assert s[j..][1] == s[j + 1];
    assert j + 1 < e ==> IsDigit(s[j + 1], b);
    ReadsUnique(s, b, i, j, j, e, b);
  }

  /** A sign that no digit follows: nothing but the sign is read. */
  lemma ReadsNothing(s: string, b: int)
    requires 2 <= b <= 16 && Terminated(s) && |s| >= 2
    requires s[0] == '-' && (s[1] == ' ' || s[1] == '-')
    ensures ScanLong(s, b).end == 1 && LongValue(s, b) == 0
  {
  }

  function Signed(sign: string, u: int): int { if sign == "-" then -u else u }

  function Padded(sign: string, padc: char, k: int, u: nat, b: int): string
    requires 2 <= b <= 16
  {
    sign + Repeat(padc, k) + Numeral(u, b)
  }

  /** `strtol` reads exactly the text, and finds the value as a `long`. */
  ghost predicate ReadsAs(text: string, rest: string, b: int, v: int)
    requires rest != "" && rest[0] == '\0'
  {
    var s := text + rest;
    Terminated(s) && ScanLong(s, b).end == |text| && ToInt64(LongValue(s, b)) == ToInt64(v)
  }

  /** A sign or blanks, and then digits. */
  lemma ReadDigitString(pre: string, digits: string, b: int, rest: string)
    requires 2 <= b <= 16 && rest != "" && rest[0] == '\0'
    requires digits != "" && AllDigits(digits, b)
    requires pre == "-" || forall x :: 0 <= x < |pre| ==> pre[x] == ' '
    ensures ReadsAs(pre + digits, rest, b, Signed(pre, Horner(digits, b)))
  {
    hide ScanLong, Horner, ToInt64;
    var s, j, e := pre + digits + rest, |pre|, |pre| + |digits|;
    assert forall x :: 0 <= x < j ==> s[x] == pre[x];
    assert forall x :: j <= x < e ==> s[x] == digits[x - j];
    assert IsDigit(digits[0], b);
    assert s[j..e] == digits;
    ReadsAll(s, if pre == "-" then 0 else j, j, e, b);
  }

  /** No padding, or zeros. */
  lemma ReadZeroPadded(sign: string, k: int, u: nat, b: int, rest: string)
    requires 2 <= b <= 16 && (sign == "" || sign == "-") && rest != "" && rest[0] == '\0'
    ensures ReadsAs(Padded(sign, '0', k, u, b), rest, b, Signed(sign, u))
  {
    hide ReadsAs, Numeral, Horner, Repeat;
    var digits := Repeat('0', k) + Numeral(u, b);
    assert Padded(sign, '0', k, u, b) == sign + digits;
    NumeralCanonical(u, b);
    ReadDigitString(sign, digits, b, rest);
    LeadingZeros(k, Numeral(u, b), b);
    NumeralValue(u, b);
  }

  /** Spaces before a number without a sign. */
  lemma ReadSpacePadded(k: int, u: nat, b: int, rest: string)
    requires 2 <= b <= 16 && rest != "" && rest[0] == '\0'
    ensures ReadsAs(Padded("", ' ', k, u, b), rest, b, u)
  {
    hide ReadsAs, Numeral, Horner, Repeat;
    var pre := Repeat(' ', k);
    assert Padded("", ' ', k, u, b) == pre + Numeral(u, b);
    assert |pre| > 0 ==> pre[0] == ' ';
    NumeralCanonical(u, b);
    ReadDigitString(pre, Numeral(u, b), b, rest);
    NumeralValue(u, b);
  }

  /** A single `-` as padding is read as a sign. */
  lemma ReadDashPadded(u: nat, b: int, rest: string)
    requires 2 <= b <= 16 && rest != "" && rest[0] == '\0'
    ensures ReadsAs(Padded("", '-', 1, u, b), rest, b, Signed("-", u))
  {
    assert Repeat('-', 1) == Repeat('-', 0) + ['-'];
    assert Padded("", '-', 1, u, b) == Padded("-", '0', 0, u, b);
    ReadZeroPadded("-", 0, u, b, rest);
  }

  /** Any other padding hides the number. */
  lemma ReadHidden(sign: string, padc: char, k: int, u: nat, b: int, rest: string)
    requires 2 <= b <= 16 && rest != "" && rest[0] == '\0' && k >= 1
    requires (sign == "-" && padc in {' ', '-'}) || (sign == "" && padc == '-' && k >= 2)
    ensures var s := Padded(sign, padc, k, u, b) + rest;
      Terminated(s) && ScanLong(s, b).end == 1 && LongValue(s, b) == 0
  {
    hide ScanLong, Numeral, Horner, LongValue;
    var pads := Repeat(padc, k);
    var s := Padded(sign, padc, k, u, b) + rest;
    assert s[|Padded(sign, padc, k, u, b)|] == '\0';
    assert s[|sign|] == pads[0] && (k >= 2 ==> s[|sign| + 1] == pads[1]);
    ReadsNothing(s, b);
  }

  /** The padding that `strtol` reads through. A single `-` that pads a number is read as its
      sign, and only 0 and 2^63 are their own negations. */
  predicate Faithful(padc: char, pads: int, v: int) {
    || pads <= 0
    || padc == '0'
    || (padc == ' ' && v >= 0)
    || (padc == '-' && pads == 1 && v in {0, LONG_MAX + 1})
  }

  /** `strtol` reads a printed number back exactly if its padding is faithful. */
  lemma ReadBack(v: int, padc: char, pads: int, b: int, rest: string)
    requires 2 <= b <= 16 && rest != "" && rest[0] == '\0' && padc in {' ', '0', '-'}
    requires LONG_MIN <= v < TWO_64
    ensures var text := Padded(if v < 0 then "-" else "", padc, pads, Abs(v), b);
      Terminated(text + rest) && (ReadsAs(text, rest, b, v) <==> Faithful(padc, pads, v))
  {
    hide ScanLong, Numeral, LongValue, ToInt64;
    var sign, u := if v < 0 then "-" else "", Abs(v);
    if pads <= 0 {
      assert Repeat(padc, pads) == Repeat('0', pads) == "";
      ReadZeroPadded(sign, pads, u, b, rest);
    } else if padc == '0' {
      ReadZeroPadded(sign, pads, u, b, rest);
    } else if padc == ' ' && v >= 0 {
      ReadSpacePadded(pads, u, b, rest);
    } else if padc == '-' && v >= 0 && pads == 1 {
      ReadDashPadded(u, b, rest);
      SelfNegation(u);
    } else {
      ReadHidden(sign, padc, pads, u, b, rest);
    }
  }

  // --------------------------------------------------------- whole conversions

  lemma ModifyPadc(mods: string, f: Field, args: seq<Arg>)
    requires mods != "" && Modify(mods, f, args).Some? && f.padc in {' ', '0', '-'}
    ensures Modify(mods, f, args).value.0.padc in {' ', '0', '-'}
  {
    hide DecimalRun, Horner, ToInt32;
  }

  lemma {:induction false} PadcCases(mods: string, f: Field, args: seq<Arg>)
    requires Evaluate(mods, f, args).Some? && f.padc in {' ', '0', '-'}
    ensures Evaluate(mods, f, args).value.0.padc in {' ', '0', '-'}
    decreases |mods|
  {
    hide Modify;
    if mods != "" {
      var (g, rest, k) := Modify(mods, f, args).value;
      ModifyPadc(mods, f, args);
      PadcCases(mods[k..], g, rest);
    }
  }

  /** `strtol` on an array that `vsnprintf` filled reads the whole text, and returns `v` as a
      `long`. */
  ghost predicate ReadBackFrom(before: string, size: nat, text: string, base: int, v: int)
    requires |text| < size <= |before|
  {
    var m := Stored(before, size, text);
    Terminated(m) && ScanLong(m, base).end == |text| && ToInt64(LongValue(m, base)) == ToInt64(v)
  }

  lemma StoredWhole(before: string, size: nat, text: string) returns (rest: string)
    requires |text| < size <= |before|
    ensures rest != "" && rest[0] == '\0' && Stored(before, size, text) == text + rest
  {
    rest := ['\0'] + before[|text| + 1..];
    assert text[..|text|] == text;
  }

  lemma NumberFieldText(prefix: string, num: uint64, b: int, f: Field, rest: seq<Arg>)
    requires 2 <= b <= 16 && NumberField(prefix, num, b, f, rest).Rendered?
    ensures NumberField(prefix, num, b, f, rest).text == Padded(prefix, f.padc, f.width - |Numeral(num, b)|, num, b)
  {
  }

  /** Every `%d` with any modifiers: `strtol` in base 10 reads the number back exactly if the
      padding is faithful. */
  lemma SignedRoundTrip(mods: string, args: seq<Arg>, f: Field, rest: seq<Arg>, n: int,
                        before: string, size: nat)
    requires AllModifiers(mods) && Evaluate(mods, PLAIN, args) == Some((f, rest))
    requires GetInt(f.lflag, rest) == Some(n) && Render(Directive(mods, 'd'), args).Rendered?
    requires |Render(Directive(mods, 'd'), args).text| < size <= |before|
    ensures var text := Render(Directive(mods, 'd'), args).text;
      && Terminated(Stored(before, size, text))
      && (ReadBackFrom(before, size, text, 10, n) <==>
          Faithful(f.padc, f.width - |Numeral(Abs(n), 10)|, n))
  {
    hide Evaluate, Render, Numeral, ScanLong, LongValue, Stored, NumberField, Padded;
    RenderDirective(mods, 'd', args, f, rest);
    PadcCases(mods, PLAIN, args);
    var u: uint64 := Abs(n);
    NumberFieldText(if n < 0 then "-" else "", u, 10, f, rest[1..]);
    var tail := StoredWhole(before, size, Render(Directive(mods, 'd'), args).text);
    ReadBack(n, f.padc, f.width - |Numeral(u, 10)|, 10, tail);
  }

  function BaseOf(conv: char): int { if conv == 'u' then 10 else if conv == 'o' then 8 else 16 }

  /** Every `%u`, `%o` and `%x`, read back in its base. */
  lemma UnsignedRoundTrip(mods: string, conv: char, args: seq<Arg>, f: Field, rest: seq<Arg>, u: uint64,
                          before: string, size: nat)
    requires conv in {'u', 'o', 'x'}
    requires AllModifiers(mods) && Evaluate(mods, PLAIN, args) == Some((f, rest))
    requires GetUint(f.lflag, rest) == Some(u)
    requires Render(Directive(mods, conv), args).Rendered?
    requires |Render(Directive(mods, conv), args).text| < size <= |before|
    ensures var text := Render(Directive(mods, conv), args).text;
      && Terminated(Stored(before, size, text))
      && (ReadBackFrom(before, size, text, BaseOf(conv), u) <==>
          Faithful(f.padc, f.width - |Numeral(u, BaseOf(conv))|, u))
  {
    hide Evaluate, Render, Numeral, ScanLong, LongValue, Stored, NumberField, Padded;
    RenderDirective(mods, conv, args, f, rest);
    PadcCases(mods, PLAIN, args);
    NumberFieldText("", u, BaseOf(conv), f, rest[1..]);
    var tail := StoredWhole(before, size, Render(Directive(mods, conv), args).text);
    ReadBack(u, f.padc, f.width - |Numeral(u, BaseOf(conv))|, BaseOf(conv), tail);
  }

  /** The digits after `0x`, up to the NUL or to the padding. */
  lemma ReadsHex(s: string, base: int, e: nat)
    requires base in {0, 16} && 2 <= e < |s| && s[0] == '0' && s[1] == 'x' && Terminated(s)
    requires (forall x :: 2 <= x < e ==> IsDigit(s[x], 16)) && !IsDigit(s[e], 16)
    ensures ScanLong(s, base) == Scan(false, 16, 2, e)
  {
  }

  lemma ReadPointer(padc: char, pads: int, u: nat, base: int, rest: string)
    requires base in {0, 16} && rest != "" && rest[0] == '\0' && padc in {' ', '0', '-'}
    ensures ReadsAs(Padded("0x", padc, pads, u, 16), rest, base, u) <==> pads <= 0 || padc == '0'
    ensures Terminated(Padded("0x", padc, pads, u, 16) + rest)
  {
    hide ScanLong, Numeral, Horner, Repeat, IsDigit, ToInt64;
    var digits, text := Repeat(padc, pads) + Numeral(u, 16), Padded("0x", padc, pads, u, 16);
    assert text == "0x" + digits;
    var s := text + rest;
    assert s[|text|] == '\0' && s[0] == '0' && s[1] == 'x';
    if pads <= 0 || padc == '0' {
      assert digits == Repeat('0', pads) + Numeral(u, 16) && AllDigits(digits, 16) by { HexDigits(padc, pads, u); }
      assert forall x :: 2 <= x < |text| ==> s[x] == digits[x - 2];
      assert !IsDigit('\0', 16) by { NoDigits(); }
      ReadsHex(s, base, |text|);
      assert s[2..|text|] == digits;
      LeadingZeros(pads, Numeral(u, 16), 16);
      NumeralValue(u, 16);
    } else {
      assert s[2] == digits[0] == padc;
      NoDigits();
      ReadsHex(s, base, 2);
    }
  }

  lemma NoDigits()
    ensures forall c | c in {'\0', ' ', '-'} :: !IsDigit(c, 16)
  {
  }

  lemma HexDigits(padc: char, pads: int, u: nat)
    requires pads <= 0 || padc == '0'
    ensures var digits := Repeat(padc, pads) + Numeral(u, 16);
      digits == Repeat('0', pads) + Numeral(u, 16) && AllDigits(digits, 16)
  {
    hide Numeral;
    NumeralCanonical(u, 16);
    if pads <= 0 {
      assert Repeat(padc, pads) == Repeat('0', pads);
    }
  }

  /** Every `%p`: read back in base 0 or 16 exactly if it is padded with zeros or not at all. */
  lemma PointerRoundTrip(mods: string, args: seq<Arg>, f: Field, u: uint64, rest: seq<Arg>,
                         base: int, before: string, size: nat)
    requires base in {0, 16}
    requires AllModifiers(mods) && Evaluate(mods, PLAIN, args) == Some((f, [Word64(u)] + rest))
    requires Render(Directive(mods, 'p'), args).Rendered?
    requires |Render(Directive(mods, 'p'), args).text| < size <= |before|
    ensures var text := Render(Directive(mods, 'p'), args).text;
      && Terminated(Stored(before, size, text))
      && (ReadBackFrom(before, size, text, base, u) <==>
          f.padc == '0' || f.width - |Numeral(u, 16)| <= 0)
  {
    hide Evaluate, Render, Numeral, ScanLong, LongValue, Stored, NumberField, Padded;
    RenderDirective(mods, 'p', args, f, [Word64(u)] + rest);
    PadcCases(mods, PLAIN, args);
    assert ([Word64(u)] + rest)[1..] == rest;
    NumberFieldText("0x", u, 16, f, rest);
    var tail := StoredWhole(before, size, Render(Directive(mods, 'p'), args).text);
    ReadPointer(f.padc, f.width - |Numeral(u, 16)|, u, base, tail);
  }

  // ------------------------------------------------------- written directives

  /** `%d` with modifiers in the usual order, of every `int`, and with an `l` of every `long`:
      when `strtol` reads it back. */
  lemma SignedReadBack(n: int, pad: char, alt: bool, width: Option<int>, precision: Option<int>, ls: string, arg: Arg,
                       before: string, size: nat)
    requires Writable(pad, width, precision, ls) && (if ls == "" then IsInt(n, arg) else IsLong(n, arg))
    ensures var r := Render(Written(pad, alt, width, precision, ls, 'd'), [arg]);
      var pads := (if width.Some? then width.value else 0) - |Numeral(if n < 0 then -n else n, 10)|;
      && r.Rendered?
      && (|r.text| < size <= |before| ==>
           (ReadBackFrom(before, size, r.text, 10, n) <==>
            pads <= 0 || pad == '0' || (pad == ' ' && n >= 0) || (pad == '-' && pads == 1 && n == 0)))
  {
    hide Render, Numeral, ScanLong, LongValue, Stored, Written, ReadsAs, ReadBackFrom, Padded, PaddedTo;
    SignedText(n, pad, alt, width, precision, ls, arg, []);
    assert [arg] + [] == [arg];
    var r := Render(Written(pad, alt, width, precision, ls, 'd'), [arg]);
    var sign, u, pads := if n < 0 then "-" else "", Abs(n), PadsOf(width, Abs(n), 10);
    PaddedIs(sign, width, pad, u, 10);
    if |r.text| < size <= |before| {
      var tail := StoredWhole(before, size, r.text);
      ReadBack(n, pad, pads, 10, tail);
      ReadsStored(before, size, r.text, tail, 10, n);
    }
  }

  function PadsOf(width: Option<int>, u: nat, base: int): int
    requires 2 <= base <= 16
  {
    (if width.Some? then width.value else 0) - |Numeral(u, base)|
  }

  lemma PaddedIs(sign: string, width: Option<int>, pad: char, u: nat, base: int)
    requires 2 <= base <= 16
    ensures sign + PaddedTo(width, pad, Numeral(u, base)) == Padded(sign, pad, PadsOf(width, u, base), u, base)
  {
    hide Numeral;
  }

  lemma ReadsStored(before: string, size: nat, text: string, rest: string, base: int, v: int)
    requires |text| < size <= |before| && rest != "" && rest[0] == '\0' && Stored(before, size, text) == text + rest
    ensures ReadBackFrom(before, size, text, base, v) <==> ReadsAs(text, rest, base, v)
  {
    hide ScanLong, LongValue, Stored, ToInt64;
  }

  /** `%u`, `%o` and `%x` of every `unsigned`, and with an `l` of every `unsigned long`. */
  lemma UnsignedReadBack(u: int, conv: char, base: int, pad: char, alt: bool, width: Option<int>,
                         precision: Option<int>, ls: string, arg: Arg, before: string, size: nat)
    requires Writable(pad, width, precision, ls)
    requires (conv == 'u' && base == 10) || (conv == 'o' && base == 8) || (conv == 'x' && base == 16)
    requires if ls == "" then 0 <= u <= 0xffff_ffff && arg == Word32(u)
             else 0 <= u <= 0xffff_ffff_ffff_ffff && arg == Word64(u)
    ensures var r := Render(Written(pad, alt, width, precision, ls, conv), [arg]);
      var pads := (if width.Some? then width.value else 0) - |Numeral(u, base)|;
      && r.Rendered?
      && (|r.text| < size <= |before| ==>
           (ReadBackFrom(before, size, r.text, base, u) <==>
            pads <= 0 || pad != '-' || (pads == 1 && (u == 0 || u == 0x8000_0000_0000_0000))))
  {
    hide Render, Numeral, ScanLong, LongValue, Stored, Written, ReadsAs, ReadBackFrom, Padded, PaddedTo;
    UnsignedText(u, conv, base, pad, alt, width, precision, ls, arg, []);
    assert [arg] + [] == [arg];
    var r := Render(Written(pad, alt, width, precision, ls, conv), [arg]);
    var pads := PadsOf(width, u, base);
    PaddedIs("", width, pad, u, base);
    assert "" + PaddedTo(width, pad, Numeral(u, base)) == r.text;
    if |r.text| < size <= |before| {
      var tail := StoredWhole(before, size, r.text);
      ReadBack(u, pad, pads, base, tail);
      ReadsStored(before, size, r.text, tail, base, u);
    }
  }

  /** `%p` of every address, read in base 0 or 16. */
  lemma PointerReadBack(u: int, base: int, pad: char, alt: bool, width: Option<int>, precision: Option<int>, ls: string,
                        before: string, size: nat)
    requires Writable(pad, width, precision, ls) && 0 <= u <= 0xffff_ffff_ffff_ffff && (base == 0 || base == 16)
    ensures var r := Render(Written(pad, alt, width, precision, ls, 'p'), [Word64(u)]);
      && r.Rendered?
      && (|r.text| < size <= |before| ==>
           (ReadBackFrom(before, size, r.text, base, u) <==>
            pad == '0' || width.None? || width.value <= |Numeral(u, 16)|))
  {
    hide Render, Numeral, ScanLong, LongValue, Stored, Written, ReadsAs, ReadBackFrom, Padded, PaddedTo;
    PointerText(u, pad, alt, width, precision, ls, []);
    assert [Word64(u)] + [] == [Word64(u)];
    var r := Render(Written(pad, alt, width, precision, ls, 'p'), [Word64(u)]);
    var pads := PadsOf(width, u, 16);
    PaddedIs("0x", width, pad, u, 16);
    if |r.text| < size <= |before| {
      var tail := StoredWhole(before, size, r.text);
      ReadPointer(pad, pads, u, base, tail);
      ReadsStored(before, size, r.text, tail, base, u);
    }
  }
}
