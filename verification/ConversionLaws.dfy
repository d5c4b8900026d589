/** What each conversion prints, for every argument: the format and the text are written out. */
module ConversionLaws {
  import opened CTypes
  import opened Numerals
  import opened Format
  import opened FormatLaws
  import opened ModifierLaws

  // ------------------------------------------------------------ one directive

  function Directive(mods: string, conv: char): string { "%" + mods + [conv] }

  lemma RenderDirective(mods: string, conv: char, args: seq<Arg>, f: Field, rest: seq<Arg>)
    requires AllModifiers(mods) && Recognised(conv) && Evaluate(mods, PLAIN, args) == Some((f, rest))
    ensures Render(Directive(mods, conv), args) == Convert(conv, f, rest)
  {
    hide Convert, Evaluate, Render;
    var i := Escape(mods, conv);
    assert Directive(mods, conv) == UnparseItem(i) + "";
    RenderCons(i, "", args);
    var r := Convert(conv, f, rest);
    if r.Rendered? {
      RenderEmpty(r.rest);
      assert r.text + "" == r.text;
    }
  }

  /** The flags for a padding character and for `#`; without a flag numbers and strings are
      padded with spaces. */
  function Flags(pad: char, alt: bool): string { (if alt then "#" else "") + if pad == ' ' then "" else [pad] }

  lemma FlagsMean(pad: char, alt: bool)
    requires pad in {' ', '0', '-'}
    ensures var flags := Flags(pad, alt);
      AllFlags(flags) && LastPad(flags, ' ') == pad && ('#' in flags <==> alt)
  {
    if pad == ' ' {
      assert LastPad("", ' ') == ' ';
      assert LastPad("#", ' ') == LastPad("", ' ');
    }
  }

  lemma ModifiersOnly(flags: string, width: Option<int>, precision: Option<int>, ls: string)
    requires AllFlags(flags) && (width.Some? ==> width.value >= 1) && (precision.Some? ==> precision.value >= 1)
    requires forall i :: 0 <= i < |ls| ==> ls[i] == 'l'
    ensures AllModifiers(flags + (WidthText(width) + (PrecisionText(precision) + ls)))
  {
    hide Numeral;
    if width.Some? {
      DecimalNumeral(width.value);
    }
    if precision.Some? {
      DecimalNumeral(precision.value);
    }
  }

  /** A directive with modifiers in the usual order is the conversion of the field they give. */
  lemma StandardDirective(pad: char, alt: bool, width: Option<int>, precision: Option<int>, ls: string,
                          conv: char, args: seq<Arg>) returns (f: Field)
    requires pad in {' ', '0', '-'} && Recognised(conv)
    requires width.Some? ==> 1 <= width.value <= MAX_NUMBER
    requires precision.Some? ==> 1 <= precision.value <= MAX_NUMBER
    requires (forall i :: 0 <= i < |ls| ==> ls[i] == 'l') && |ls| <= INT_MAX
    ensures f == Field(pad, if width.Some? then width.value else if precision.Some? then 0 else -1,
                       if precision.Some? then precision.value else -1, |ls|, alt)
    ensures var mods := Flags(pad, alt) + (WidthText(width) + (PrecisionText(precision) + ls));
      && AllModifiers(mods) && Evaluate(mods, PLAIN, args) == Some((f, args))
      && Render(Directive(mods, conv), args) == Convert(conv, f, args)
  {
    hide Evaluate, Render, Convert, WidthText, PrecisionText, Flags, AllFlags, LastPad, AllModifiers;
    var flags := Flags(pad, alt);
    var mods := flags + (WidthText(width) + (PrecisionText(precision) + ls));
    FlagsMean(pad, alt);
    StandardModifiers(flags, width, precision, ls, args);
    ModifiersOnly(flags, width, precision, ls);
    f := Field(pad, if width.Some? then width.value else if precision.Some? then 0 else -1,
               if precision.Some? then precision.value else -1, |ls|, alt);
    RenderDirective(mods, conv, args, f, args);
  }

  /** A directive with flags, width, precision and `l`s, each of which may be missing. */
  function Written(pad: char, alt: bool, width: Option<int>, precision: Option<int>, ls: string, conv: char): string
    requires (width.Some? ==> width.value >= 1) && (precision.Some? ==> precision.value >= 1)
  {
    "%" + (Flags(pad, alt) + (WidthText(width) + (PrecisionText(precision) + ls))) + [conv]
  }

  /** The flags and numbers that can be written. */
  predicate Writable(pad: char, width: Option<int>, precision: Option<int>, ls: string) {
    && pad in {' ', '0', '-'}
    && (width.Some? ==> 1 <= width.value <= 0x7fff_ffcf)
    && (precision.Some? ==> 1 <= precision.value <= 0x7fff_ffcf)
    && (forall i :: 0 <= i < |ls| ==> ls[i] == 'l') && |ls| <= 0x7fff_ffff
  }

  // ------------------------------------------------------------------ numbers

  /** `digits` padded up to the width. */
  function PaddedTo(width: Option<int>, pad: char, digits: string): string {
    Repeat(pad, (if width.Some? then width.value else 0) - |digits|) + digits
  }

  lemma NumberFieldIs(prefix: string, u: uint64, base: int, f: Field, width: Option<int>, rest: seq<Arg>)
    requires 2 <= base <= 16 && (if width.Some? then f.width == width.value >= 1 else -1 <= f.width <= 0)
    ensures NumberField(prefix, u, base, f, rest) ==
            Rendered(prefix + PaddedTo(width, f.padc, Numeral(u, base)), rest)
  {
    hide Numeral;
    NumeralAtMost64(u, base);
    var s := Numeral(u, base);
    var k := (if width.Some? then width.value else 0) - |s|;
    assert Repeat(f.padc, f.width - |s|) == Repeat(f.padc, k);
    assert prefix + Repeat(f.padc, k) + s == prefix + (Repeat(f.padc, k) + s);
  }

  /** How an `int` and a `long` are passed. */
  predicate IsInt(n: int, arg: Arg) {
    -0x8000_0000 <= n <= 0x7fff_ffff && arg == Word32(if n < 0 then n + 0x1_0000_0000 else n)
  }

  predicate IsLong(n: int, arg: Arg) {
    && -0x8000_0000_0000_0000 <= n <= 0x7fff_ffff_ffff_ffff
    && arg == Word64(if n < 0 then n + 0x1_0000_0000_0000_0000 else n)
  }

  /** `%d` prints every `int`, and with an `l` every `long`: the sign, the padding and the
      decimal digits of the magnitude. */
  lemma SignedText(n: int, pad: char, alt: bool, width: Option<int>, precision: Option<int>, ls: string, arg: Arg,
                   rest: seq<Arg>)
    requires Writable(pad, width, precision, ls)
    requires if ls == "" then IsInt(n, arg) else IsLong(n, arg)
    ensures Render(Written(pad, alt, width, precision, ls, 'd'), [arg] + rest) ==
            Rendered((if n < 0 then "-" else "") + PaddedTo(width, pad, Numeral(if n < 0 then -n else n, 10)), rest)
  {
    hide Render, Convert, Numeral, Flags, WidthText, PrecisionText, PaddedTo, Evaluate;
    var f := StandardDirective(pad, alt, width, precision, ls, 'd', [arg] + rest);
    ConvertSigned(n, f, width, arg, rest);
  }

  lemma ConvertSigned(n: int, f: Field, width: Option<int>, arg: Arg, rest: seq<Arg>)
    requires if width.Some? then f.width == width.value >= 1 else -1 <= f.width <= 0
    requires if f.lflag == 0 then IsInt(n, arg) else IsLong(n, arg)
    ensures Convert('d', f, [arg] + rest) ==
            Rendered((if n < 0 then "-" else "") + PaddedTo(width, f.padc, Numeral(if n < 0 then -n else n, 10)), rest)
  {
    hide Numeral, PaddedTo, NumberField, ToInt32, ToInt64;
    SignedWords(n);
    assert GetInt(f.lflag, [arg] + rest) == Some(n);
    assert ([arg] + rest)[1..] == rest;
    NumberFieldIs(if n < 0 then "-" else "", Abs(n), 10, f, width, rest);
  }

  /** Two's complement: a word whose top bit is set stands for a negative number. */
  lemma SignedWords(n: int)
    ensures -0x8000_0000 <= n <= 0x7fff_ffff ==> ToInt32(if n < 0 then n + 0x1_0000_0000 else n) == n
    ensures -0x8000_0000_0000_0000 <= n <= 0x7fff_ffff_ffff_ffff ==>
            ToInt64(if n < 0 then n + 0x1_0000_0000_0000_0000 else n) == n
  {
    Wraps(n, if n < 0 then 1 else 0);
  }

  /** `%u`, `%o` and `%x` print every `unsigned`, and with an `l` every `unsigned long`, in
      base 10, 8 and 16. */
  lemma UnsignedText(u: int, conv: char, base: int, pad: char, alt: bool, width: Option<int>, precision: Option<int>,
                     ls: string, arg: Arg, rest: seq<Arg>)
    requires Writable(pad, width, precision, ls)
    requires (conv == 'u' && base == 10) || (conv == 'o' && base == 8) || (conv == 'x' && base == 16)
    requires if ls == "" then 0 <= u <= 0xffff_ffff && arg == Word32(u)
             else 0 <= u <= 0xffff_ffff_ffff_ffff && arg == Word64(u)
    ensures Render(Written(pad, alt, width, precision, ls, conv), [arg] + rest) ==
            Rendered(PaddedTo(width, pad, Numeral(u, base)), rest)
  {
    hide Render, Numeral, Flags, WidthText, PrecisionText, PaddedTo, Evaluate, NumberField;
    var f := StandardDirective(pad, alt, width, precision, ls, conv, [arg] + rest);
    assert ([arg] + rest)[1..] == rest;
    NumberFieldIs("", u, base, f, width, rest);
    assert "" + PaddedTo(width, pad, Numeral(u, base)) == PaddedTo(width, pad, Numeral(u, base));
  }

  /** `%p` prints `0x` and the hexadecimal digits of every address. */
  lemma PointerText(u: int, pad: char, alt: bool, width: Option<int>, precision: Option<int>, ls: string,
                    rest: seq<Arg>)
    requires Writable(pad, width, precision, ls) && 0 <= u <= 0xffff_ffff_ffff_ffff
    ensures Render(Written(pad, alt, width, precision, ls, 'p'), [Word64(u)] + rest) ==
            Rendered("0x" + PaddedTo(width, pad, Numeral(u, 16)), rest)
  {
    hide Render, Numeral, Flags, WidthText, PrecisionText, PaddedTo, Evaluate, NumberField;
    var f := StandardDirective(pad, alt, width, precision, ls, 'p', [Word64(u)] + rest);
    assert ([Word64(u)] + rest)[1..] == rest;
    NumberFieldIs("0x", u, 16, f, width, rest);
  }

  // ------------------------------------------------------------------ strings

  /** `text` has `w` characters: `n` of `s`, with `?` for those that are not visible if `alt`
      says so, on the left if `pad` is `-` and else on the right, and the rest is padding. */
  ghost predicate Laid(text: string, s: string, n: nat, w: nat, pad: char, alt: bool)
    requires n <= |s| && n <= w
  {
    var at := if pad == '-' then 0 else w - n;
    && |text| == w
    && (forall i :: 0 <= i < n ==> text[at + i] == if alt && !(' ' <= s[i] <= '~') then '?' else s[i])
    && (forall i :: 0 <= i < at ==> text[i] == pad)
    && (forall i :: at + n <= i < w ==> text[i] == ' ')
  }

  /** A field whose width is -1 or more has this text. The width is counted down twice for each
      character if there can be padding on the left, so more than 2^30 of them can overflow it. */
  lemma StringFieldIs(s: string, f: Field, rest: seq<Arg>) returns (text: string)
    requires |s| <= 0x7fff_ffff && f.width >= -1
    ensures var n := if 0 <= f.precision < |s| then f.precision else |s|;
      && Laid(text, s, n, if f.width > n then f.width else n, f.padc, f.alt)
      && StringField(s, f, rest) ==
         if f.padc != '-' && f.width > 0 && 2 * n - f.width > 0x8000_0000 then Undefined else Rendered(text, rest)
  {
    hide Shown, StringText, Laid;
    text := StringText(s, f);
    var n := if 0 <= f.precision < |s| then f.precision else |s|;
    StringFieldLaw(s, f);
    assert |Shown(s, f)| == n;
    StringTextLaid(s, f, n);
  }

  lemma StringTextLaid(s: string, f: Field, n: nat)
    requires f.width >= -1 && n == if 0 <= f.precision < |s| then f.precision else |s|
    ensures Laid(StringText(s, f), s, n, if f.width > n then f.width else n, f.padc, f.alt)
  {
    hide Shown, AllVisible;
    ShownIs(s, f, n);
    var t := Shown(s, f);
    if PadsLeft(f) {
      PaddedLeft(t, s, n, f.width, f.padc, f.alt);
    } else {
      PaddedRight(t, s, n, f.width, f.padc, f.alt);
    }
  }

  lemma ShownIs(s: string, f: Field, n: nat)
    requires n == if 0 <= f.precision < |s| then f.precision else |s|
    ensures |Shown(s, f)| == n
    ensures forall i :: 0 <= i < n ==> Shown(s, f)[i] == if f.alt && !(' ' <= s[i] <= '~') then '?' else s[i]
  {
    hide Shown, StringText;
    StringFieldLaw(s, f);
  }

  lemma PaddedLeft(t: string, s: string, n: nat, width: int, pad: char, alt: bool)
    requires n == |t| <= |s| && pad != '-'
    requires forall i :: 0 <= i < n ==> t[i] == if alt && !(' ' <= s[i] <= '~') then '?' else s[i]
    ensures Laid(Repeat(pad, width - n) + t, s, n, if width > n then width else n, pad, alt)
  {
  }

  lemma PaddedRight(t: string, s: string, n: nat, width: int, pad: char, alt: bool)
    requires n == |t| <= |s| && (pad == '-' || width <= n)
    requires forall i :: 0 <= i < n ==> t[i] == if alt && !(' ' <= s[i] <= '~') then '?' else s[i]
    ensures Laid(t + Repeat(' ', width - n), s, n, if width > n then width else n, pad, alt)
  {
  }

  /** `%s` for NULL and for every string: how much is shown, and where the padding is. */
  lemma StringConversion(p: Option<CString>, pad: char, alt: bool, width: Option<int>, precision: Option<int>,
                         ls: string, rest: seq<Arg>) returns (text: string)
    requires Writable(pad, width, precision, ls) && (p.Some? ==> |p.value| <= 0x7fff_ffff)
    ensures var s := if p.None? then "(null)" else p.value[..|p.value| - 1];
      var n := if precision.Some? && precision.value < |s| then precision.value else |s|;
      && Laid(text, s, n, if width.Some? && width.value > n then width.value else n, pad, alt)
      && Render(Written(pad, alt, width, precision, ls, 's'), [Text(p)] + rest) ==
         if pad != '-' && width.Some? && 2 * n - width.value > 0x8000_0000 then Undefined else Rendered(text, rest)
  {
    hide Render, Flags, WidthText, PrecisionText, Evaluate, StringField, Laid;
    var f := StandardDirective(pad, alt, width, precision, ls, 's', [Text(p)] + rest);
    text := StringFieldIs(ArgString(p), f, rest);
    assert ([Text(p)] + rest)[1..] == rest;
  }

  /** `%*.*s` takes width and precision from two `int` arguments; a negative precision shows
      the whole string, and a negative width is none. */
  lemma StarText(w: int, n: int, p: CString, first: Arg, second: Arg, rest: seq<Arg>) returns (text: string)
    requires |p| <= 0x7fff_ffff && IsInt(w, first) && IsInt(n, second)
    ensures var s := p[..|p| - 1];
      var k := if 0 <= n < |s| then n else |s|;
      && Laid(text, s, k, if w > k then w else k, ' ', false)
      && Render("%*.*s", [first] + ([second] + ([Text(Some(p))] + rest))) ==
         if w > 0 && 2 * k - w > 0x8000_0000 then Undefined else Rendered(text, rest)
  {
    hide Render, Evaluate, StringField, Laid, ToInt32;
    SignedWords(w);
    SignedWords(n);
    var more := [Text(Some(p))] + rest;
    EvaluateStar(first.w, ".*", PLAIN, [second] + more);
    var f := SetNumber(PLAIN, w);
    assert ".*" + "" == ".*" && "*" + ".*" == "*.*";
    StarPrecision(second.w, "", f, more);
    var g := f.(width := Max(f.width, 0), precision := n);
    EvaluateNone(g, more);
    assert Directive("*.*", 's') == "%*.*s";
    RenderDirective("*.*", 's', [first] + ([second] + more), g, more);
    text := StringFieldIs(Chars(p), g, rest);
    assert more[1..] == rest;
  }

  /** `%*d`: a negative width is none, unless counting it down overflows. */
  lemma StarNumberText(w: int, n: int, first: Arg, second: Arg, rest: seq<Arg>)
    requires IsInt(w, first) && IsInt(n, second)
    ensures var digits := Numeral(if n < 0 then -n else n, 10);
      Render("%*d", [first] + ([second] + rest)) ==
      if w - |digits| < -0x8000_0000 then Undefined
      else Rendered((if n < 0 then "-" else "") + Repeat(' ', w - |digits|) + digits, rest)
  {
    hide Render, Evaluate, Numeral, ToInt32, Repeat;
    SignedWords(w);
    SignedWords(n);
    var more := [second] + rest;
    var f := SetNumber(PLAIN, w);
    assert "*" + "" == "*";
    EvaluateStar(first.w, "", PLAIN, more);
    EvaluateNone(f, more);
    assert Directive("*", 'd') == "%*d";
    RenderDirective("*", 'd', [first] + more, f, more);
    assert GetInt(0, more) == Some(n) && more[1..] == rest;
  }

  lemma EvaluateNone(f: Field, args: seq<Arg>)
    ensures Evaluate("", f, args) == Some((f, args))
  {
  }

  // ------------------------------------------------- characters and the rest

  /** `%c` prints the low eight bits of its argument. */
  lemma CharText(w: int, pad: char, alt: bool, width: Option<int>, precision: Option<int>, ls: string, rest: seq<Arg>)
    requires Writable(pad, width, precision, ls) && 0 <= w <= 0xffff_ffff
    ensures Render(Written(pad, alt, width, precision, ls, 'c'), [Word32(w)] + rest) ==
            Rendered([(w % 256) as char], rest)
  {
    hide Render, Flags, WidthText, PrecisionText, Evaluate;
    var f := StandardDirective(pad, alt, width, precision, ls, 'c', [Word32(w)] + rest);
    LowByte(w);
    assert ([Word32(w)] + rest)[1..] == rest;
  }

  lemma LowByte(w: uint32)
    ensures ToChar(ToInt32(w)) == (w % 256) as char
  {
  }

  /** `%e` prints the name of an error code or of its negation, or else the code. */
  lemma ErrorConversion(v: int, pad: char, alt: bool, width: Option<int>, precision: Option<int>, ls: string, arg: Arg,
                        rest: seq<Arg>)
    requires Writable(pad, width, precision, ls) && IsInt(v, arg) && v != -0x8000_0000
    ensures var e := if v < 0 then -v else v;
      Render(Written(pad, alt, width, precision, ls, 'e'), [arg] + rest) ==
      Rendered(if e == 1 then "unspecified error"
               else if e == 2 then "bad process"
               else if e == 3 then "invalid parameter"
               else if e == 4 then "out of memory"
               else if e == 5 then "out of processes"
               else if e == 6 then "segmentation fault"
               else "error " + Numeral(e, 10), rest)
  {
    hide Render, Flags, WidthText, PrecisionText, Evaluate, Numeral, ToInt32;
    var f := StandardDirective(pad, alt, width, precision, ls, 'e', [arg] + rest);
    SignedWords(v);
    assert ([arg] + rest)[1..] == rest;
  }

  /** `%%` prints `%`, and takes no argument. */
  lemma PercentText(pad: char, alt: bool, width: Option<int>, precision: Option<int>, ls: string, args: seq<Arg>)
    requires Writable(pad, width, precision, ls)
    ensures Render(Written(pad, alt, width, precision, ls, '%'), args) == Rendered("%", args)
  {
    hide Render, Flags, WidthText, PrecisionText, Evaluate;
    var f := StandardDirective(pad, alt, width, precision, ls, '%', args);
  }

  /** Any other character that is no modifier leaves the directive as it is written. */
  lemma UnknownText(conv: char, args: seq<Arg>)
    requires conv !in "-0123456789*.#lcesduopx%"
    ensures Render("%" + [conv], args) == Rendered("%" + [conv], args)
  {
    hide Render;
    var all := "-0123456789*.#lcesduopx%";
    assert forall i :: 0 <= i < |all| ==> conv != all[i];
    assert !IsModifier(conv) && !Recognised(conv) by { NotSpecial(conv); }
    var i := Escape("", conv);
    assert UnparseItem(i) + "" == "%" + [conv] && UnparseItem(i) == "%" + [conv];
    EvaluateNone(PLAIN, args);
    RenderCons(i, "", args);
    RenderEmpty(args);
    assert "%" + [conv] + "" == "%" + [conv];
  }

  /** A `*` takes its argument also when the directive turns out to be unknown. */
  lemma UnknownStar(conv: char, w: int, first: Arg, tail: string, args: seq<Arg>)
    requires conv !in "-0123456789*.#lcesduopx%" && IsInt(w, first)
    ensures Render("%*" + [conv] + tail, [first] + args) == Prepend("%*" + [conv], Render(tail, args))
  {
    hide Render, Evaluate;
    NotSpecial(conv);
    var i := Escape("*", conv);
    assert UnparseItem(i) == "%*" + [conv];
    assert "*" + "" == "*";
    EvaluateStar(first.w, "", PLAIN, args);
    EvaluateNone(SetNumber(PLAIN, ToInt32(first.w)), args);
    RenderCons(i, tail, [first] + args);
  }

  /** What follows a directive is rendered with the arguments that it leaves. */
  lemma DirectiveThen(pad: char, alt: bool, width: Option<int>, precision: Option<int>, ls: string, conv: char,
                      tail: string, args: seq<Arg>)
    requires Writable(pad, width, precision, ls) && conv in "cesduopx%"
    ensures var s := Written(pad, alt, width, precision, ls, conv);
      Render(s + tail, args) == RenderThen(s, tail, args)
  {
    hide Render, Evaluate, Convert, Flags, WidthText, PrecisionText;
    var f := StandardDirective(pad, alt, width, precision, ls, conv, args);
    var mods := Flags(pad, alt) + (WidthText(width) + (PrecisionText(precision) + ls));
    var i := Escape(mods, conv);
    assert UnparseItem(i) == Written(pad, alt, width, precision, ls, conv);
    RenderCons(i, tail, args);
  }

  lemma NotDigit(conv: char)
    requires conv !in "-0123456789*.#lcesduopx%"
    ensures !('0' <= conv <= '9')
  {
    var all := "-0123456789*.#lcesduopx%";
    assert all[1] == '0' && all[2] == '1' && all[3] == '2' && all[4] == '3' && all[5] == '4';
    assert all[6] == '5' && all[7] == '6' && all[8] == '7' && all[9] == '8' && all[10] == '9';
  }

  lemma NotSpecial(conv: char)
    requires conv !in "-0123456789*.#lcesduopx%"
    ensures !IsModifier(conv) && !Recognised(conv)
  {
    var all := "-0123456789*.#lcesduopx%";
    assert all[0] == '-' && all[11] == '*' && all[12] == '.' && all[13] == '#' && all[14] == 'l';
    assert all[15] == 'c' && all[16] == 'e' && all[17] == 's' && all[18] == 'd' && all[19] == 'u';
    assert all[20] == 'o' && all[21] == 'p' && all[22] == 'x' && all[23] == '%';
    NotDigit(conv);
  }
}
