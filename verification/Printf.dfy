/** printfmt.c: the formatter as the source runs it, proved against `Format.Render`. */
module Printf {
  import opened CTypes
  import opened Numerals
  import opened Format
  import opened FormatLaws
  import opened CStrings
  import opened Sinks

  /** `printnum`: the more significant digits first, then this one; the innermost call pads. */
  method Printnum(sink: Sink, num: uint64, base: int, width: int32, padc: char)
    requires sink.Valid() && 2 <= base <= 16
    requires width - |Numeral(num, base)| >= INT_MIN
    requires sink.Room(Max(width, |Numeral(num, base)|))
    modifies sink, sink.str, sink.con
    ensures sink.Valid()
    ensures sink.stream == old(sink.stream) + Repeat(padc, width - |Numeral(num, base)|) + Numeral(num, base)
    decreases num
  {
    hide Numeral, DigitChar, Repeat;
    NumeralStep(num, base);
    var mod := num % base;
    if num >= base {
      var result: uint64 := num / base;
      Printnum(sink, result, base, width - 1, padc);
    } else {
      PutPadding(sink, width, padc);
    }
    ghost var high := sink.stream;
    DigitTable(mod);
    sink.Put("0123456789abcdef"[mod]);
    assert sink.stream == high + [DigitChar(mod)];
  }

  lemma NumeralStep(num: nat, base: int)
    requires 2 <= base <= 16
    ensures 0 <= num % base < 16
    ensures num < base ==> num % base == num && Numeral(num, base) == [DigitChar(num)]
    ensures num >= base ==> 0 < num / base < num
    ensures num >= base ==> Numeral(num, base) == Numeral(num / base, base) + [DigitChar(num % base)]
  {
    if num >= base {
      QuotientShrinks(num, base);
    } else {
      DivMod(0, num, base);
    }
  }

  /** The pad loop of `printnum`: one pad less than the width. */
  method PutPadding(sink: Sink, width: int32, padc: char)
    requires sink.Valid() && width > INT_MIN && sink.Room(Max(width - 1, 0))
    modifies sink, sink.str, sink.con
    ensures sink.Valid()
    ensures sink.stream == old(sink.stream) + Repeat(padc, width - 1)
  {
    var w: int32 := width - 1;
    while w > 0
      invariant sink.Valid()
      invariant w == width - 1 || 0 <= w < width
      invariant sink.stream == old(sink.stream) + Repeat(padc, width - 1 - w)
    {
      sink.Put(padc);
      w := w - 1;
    }
  }

  /** The `case '1' ... '9'` loop: `pos` is just past the first digit, `ch`. */
  method ScanNumber(fmt: CString, start: nat, ghost n: nat) returns (precision: int32, pos: nat)
    requires start + n < |fmt| && 1 <= n
    requires n == DecimalRun(fmt[start..start + n]) && !('0' <= fmt[start + n] <= '9')
    requires Horner(fmt[start..start + n], 10) <= MAX_NUMBER
    ensures pos == start + n && precision == Horner(fmt[start..start + n], 10)
  {
    hide Horner, DecimalRun;
    ghost var s := fmt[start..start + n];
    NumberStart(s);
    precision := 0;
    pos := start + 1;
    var ch := fmt[start];
    while true
      invariant start < pos <= start + n && ch == fmt[pos - 1]
      invariant precision == Horner(s[..pos - start - 1], 10)
      decreases n - (pos - start)
    {
      NumberStep(s, pos - start);
      var sum: int32 := precision * 10 + ch as int;
      precision := sum - '0' as int;
      ch := fmt[pos];
      if ch < '0' || ch > '9' {
        break;
      }
      assert pos < start + n;
      pos := pos + 1;
    }
    assert s[..n] == s;
  }

  lemma NumberStart(s: string)
    ensures Horner(s[..0], 10) == 0
  {
  }

  lemma NumberStep(s: string, k: nat)
    requires 1 <= k <= |s| && DecimalRun(s) == |s|
    ensures Horner(s[..k], 10) == Horner(s[..k - 1], 10) * 10 + (s[k - 1] as int - '0' as int)
    ensures 0 <= Horner(s[..k], 10) <= Horner(s, 10)
  {
    hide Horner, DecimalRun, DigitValue, AllDigits;
    DecimalDigits(s);
    HornerAppend(s[..k - 1], s[k - 1], 10);
    assert s[..k - 1] + [s[k - 1]] == s[..k];
    HornerPrefix(s, k, 10);
  }

  lemma DecimalDigits(s: string)
    requires forall i :: 0 <= i < |s| ==> '0' <= s[i] <= '9'
    ensures AllDigits(s, 10)
    ensures forall i :: 0 <= i < |s| ==> DigitValue(s[i]) == s[i] as int - '0' as int
  {
  }

  /** One turn of `reswitch` on a modifier; `pos` is just past it. */
  method ScanModifier(fmt: CString, start: nat, ghost end: nat, f: Field, args: seq<Arg>)
    returns (padc: char, width: int32, precision: int32, lflag: int32, altflag: bool, pos: nat, ap: seq<Arg>)
    requires start < end < |fmt| && IsModifier(fmt[start]) && !IsModifier(fmt[end])
    requires Modify(fmt[start..end], f, args).Some?
    ensures start < pos <= end
    ensures Modify(fmt[start..end], f, args) ==
            Some((Field(padc, width, precision, lflag, altflag), ap, pos - start))
  {
    hide Horner, DecimalRun;
    padc, width, precision, lflag, altflag := f.padc, f.width, f.precision, f.lflag, f.alt;
    ap, pos := args, start + 1;
    ghost var mods := fmt[start..end];
    var ch := fmt[start];
    assert mods[0] == ch;
    if ch == '-' {
      padc := '-';
    } else if ch == '0' {
      padc := '0';
    } else if ch == '*' {
      precision := ToInt32(ap[0].w);
      ap := ap[1..];
      if width < 0 {
        width, precision := precision, -1;
      }
    } else if ch == '.' {
      if width < 0 {
        width := 0;
      }
    } else if ch == '#' {
      altflag := true;
    } else if ch == 'l' {
      lflag := lflag + 1;
    } else {
      ghost var k := DecimalRun(mods);
      assert mods[..k] == fmt[start..start + k];
      precision, pos := ScanNumber(fmt, start, k);
      if width < 0 {
        width, precision := precision, -1;
      }
    }
  }

  /** The `reswitch` loop up to the first character that is no modifier; `pos` is just
      past it. The modifiers are the characters from `start` to `end`. */
  method ScanModifiers(fmt: CString, start: nat, args: seq<Arg>, ghost end: nat)
    returns (f: Field, ch: char, pos: nat, ap: seq<Arg>)
    requires start <= end < |fmt|
    requires AllModifiers(fmt[start..end]) && !IsModifier(fmt[end])
    requires Evaluate(fmt[start..end], PLAIN, args).Some?
    ensures pos == end + 1 && ch == fmt[end]
    ensures Evaluate(fmt[start..end], PLAIN, args) == Some((f, ap))
  {
    hide Modify;
    f, ap, pos, ch := PLAIN, args, start, fmt[start];
    while IsModifier(ch)
      invariant start <= pos <= end && ch == fmt[pos]
      invariant Evaluate(fmt[pos..end], f, ap) == Evaluate(fmt[start..end], PLAIN, args)
      decreases |fmt| - pos
    {
      ghost var mods := fmt[pos..end];
      var padc, width, precision, lflag, altflag, next, rest := ScanModifier(fmt, pos, end, f, ap);
      assert mods[next - pos..] == fmt[next..end];
      f, ap, pos := Field(padc, width, precision, lflag, altflag), rest, next;
      ch := fmt[pos];
    }
    pos := pos + 1;
  }

  /** `for (; width > 0; width --) putch(padc)` */
  method PutPads(sink: Sink, padc: char, width: int32) returns (w: int32)
    requires sink.Valid() && sink.Room(Max(width, 0))
    modifies sink, sink.str, sink.con
    ensures sink.Valid() && sink.stream == old(sink.stream) + Repeat(padc, width)
    ensures w == Min(width, 0)
  {
    w := width;
    while w > 0
      invariant sink.Valid()
      invariant w == width || 0 <= w < width
      invariant sink.stream == old(sink.stream) + Repeat(padc, width - w)
    {
      sink.Put(padc);
      w := w - 1;
    }
  }

  /** The copy loop of `%s`. */
  method PutChars(sink: Sink, p: CString, precision: int32, altflag: bool, width: int32) returns (w: int32)
    requires sink.Valid() && sink.Room(Limit(Chars(p), precision))
    requires width - Limit(Chars(p), precision) >= INT_MIN
    modifies sink, sink.str, sink.con
    ensures sink.Valid()
    ensures var t := Chars(p)[..Limit(Chars(p), precision)];
      sink.stream == old(sink.stream) + (if altflag then AllVisible(t) else t)
    ensures w == width - Limit(Chars(p), precision)
  {
    hide AllVisible;
    w := width;
    var prec: int32, i := precision, 0;
    ghost var n := Limit(Chars(p), precision);
    ghost var shown := "";
    VisibleStep("", ' ');
    while true
      invariant sink.Valid()
      invariant 0 <= i <= n && w == width - i
      invariant if precision < 0 then prec == precision else prec == precision - i
      invariant shown == if altflag then AllVisible(Chars(p)[..i]) else Chars(p)[..i]
      invariant sink.stream == old(sink.stream) + shown
      decreases |p| - i
    {
      var ch := p[i];
      if ch == '\0' {
        break;
      }
      if prec >= 0 {
        prec := prec - 1;
        if prec < 0 {
          break;
        }
      }
      i := i + 1;
      VisibleStep(Chars(p)[..i - 1], ch);
      assert Chars(p)[..i] == Chars(p)[..i - 1] + [ch];
      if altflag && (ch < ' ' || ch > '~') {
        sink.Put('?');
      } else {
        sink.Put(ch);
      }
      shown := shown + [if altflag then Visible(ch) else ch];
      w := w - 1;
    }
  }

  lemma VisibleStep(t: string, c: char)
    ensures AllVisible("") == ""
    ensures AllVisible(t + [c]) == AllVisible(t) + [Visible(c)]
  {
  }

  /** The count `strnlen` predicts is the count the copy loop prints, and the `size_t`
      subtraction does not wrap. */
  lemma PredictedCount(s: string, f: Field)
    requires PadsLeft(f) && WidthStaysInt(f, |Shown(s, f)|)
    ensures Min(|s|, ToUint32(f.precision)) == |Shown(s, f)| == Limit(s, f.precision)
    ensures ToInt32(f.width - |Shown(s, f)|) == f.width - |Shown(s, f)|
  {
  }

  /** The padding before a string, and what is left of the width. */
  method PutLeftPads(sink: Sink, p: CString, f: Field) returns (width: int32)
    requires sink.Valid() && WidthStaysInt(f, |Shown(Chars(p), f)|)
    requires sink.Room(Max(f.width - |Shown(Chars(p), f)|, 0))
    modifies sink, sink.str, sink.con
    ensures sink.Valid()
    ensures var pads := f.width - |Shown(Chars(p), f)|;
      if PadsLeft(f) then sink.stream == old(sink.stream) + Repeat(f.padc, pads) && width == Min(pads, 0)
      else sink.stream == old(sink.stream) && width == f.width
  {
    width := f.width;
    if width > 0 && f.padc != '-' {
      CStringLength(p);
      PredictedCount(Chars(p), f);
      var n := Strnlen(p, ToUint32(f.precision));
      width := ToInt32(width - n);
      width := PutPads(sink, f.padc, width);
    }
  }

  /** `case 's'` */
  method PutString(sink: Sink, arg: Option<CString>, f: Field)
    requires sink.Valid() && StringField(ArgString(arg), f, []).Rendered?
    requires sink.Room(|StringField(ArgString(arg), f, []).text|)
    modifies sink, sink.str, sink.con
    ensures sink.Valid()
    ensures sink.stream == old(sink.stream) + StringField(ArgString(arg), f, []).text
  {
    var p: CString := "(null)\0";
    assert Chars("(null)\0") == "(null)";
    if arg.Some? {
      p := arg.value;
    }
    PutField(sink, p, f);
  }

  lemma ShownIs(s: string, f: Field)
    ensures var t := s[..Limit(s, f.precision)]; Shown(s, f) == if f.alt then AllVisible(t) else t
    ensures |Shown(s, f)| == Limit(s, f.precision)
  {
  }

  /** The text of a string field in the order it is put. */
  lemma StringTextParts(before: string, s: string, f: Field)
    ensures var t := Shown(s, f); var pads := f.width - |t|;
      && |StringText(s, f)| == Max(f.width, |t|)
      && (PadsLeft(f) ==>
           before + Repeat(f.padc, pads) + t + Repeat(' ', Min(pads, 0) - |t|) == before + StringText(s, f))
      && (!PadsLeft(f) ==> before + t + Repeat(' ', pads) == before + StringText(s, f))
  {
  }

  method PutField(sink: Sink, p: CString, f: Field)
    requires sink.Valid() && WidthStaysInt(f, |Shown(Chars(p), f)|)
    requires sink.Room(|StringText(Chars(p), f)|)
    modifies sink, sink.str, sink.con
    ensures sink.Valid()
    ensures sink.stream == old(sink.stream) + StringText(Chars(p), f)
  {
    hide Repeat, AllVisible, StringText, Shown, Limit, Sink.Valid;
    ghost var before, t := sink.stream, Shown(Chars(p), f);
    StringTextParts(before, Chars(p), f);
    ShownIs(Chars(p), f);
    var width := PutLeftPads(sink, p, f);
    width := PutChars(sink, p, f.precision, f.alt, width);
    width := PutPads(sink, ' ', width);
  }

  /** The format that prints an unknown error code. */
  lemma ErrorCodeFormat(err: int)
    requires 0 <= err <= INT_MAX
    ensures Render(Chars("error %d\0"), [Word32(err)]) == Rendered("error " + Numeral(err, 10), [])
    ensures !PrintsError(Chars("error %d\0"))
  {
    hide Render, PrintsError, Numeral;
    assert Chars("error %d\0") == "error " + ("%d" + "");
    OneNumber("error ", "", err);
    assert Numeral(err, 10) + "" == Numeral(err, 10);
    LiteralRunError("error ", "%d" + "");
    NotError('d');
    assert "%" + ['d'] + "" == "%d" + "";
  }

  /** The format that prints the name of an error. */
  lemma ErrorNameFormat(name: CString)
    requires |name| < INT_MAX
    ensures Render(Chars("%s\0"), [Text(Some(name))]) == Rendered(Chars(name), [])
    ensures !PrintsError(Chars("%s\0"))
  {
    var d := "%" + ['s'] + "";
    assert Chars("%s\0") == d;
    PlainEscape('s', "", [Text(Some(name))]);
    NotError('s');
    assert Chars(name)[..|name| - 1] == Chars(name);
  }

  lemma NotError(conv: char)
    requires !IsModifier(conv) && conv != 'e'
    ensures !PrintsError("%" + [conv] + "")
  {
  }

  /** The `number` label, after the prefix has been put. */
  method PutNumber(sink: Sink, num: uint64, base: int, f: Field)
    requires sink.Valid() && 2 <= base <= 16
    requires NumberField("", num, base, f, []).Rendered?
    requires sink.Room(|NumberField("", num, base, f, []).text|)
    modifies sink, sink.str, sink.con
    ensures sink.Valid()
    ensures sink.stream == old(sink.stream) + NumberField("", num, base, f, []).text
  {
    Printnum(sink, num, base, f.width, f.padc);
  }

  lemma FieldPrefix(prefix: string, num: uint64, base: int, f: Field, rest: seq<Arg>)
    requires 2 <= base <= 16
    ensures NumberField(prefix, num, base, f, rest) ==
            var r := NumberField("", num, base, f, []);
            if r.Undefined? then Undefined else Rendered(prefix + r.text, rest)
  {
  }

  /** `case 'd'` */
  method PutSigned(sink: Sink, f: Field, args: seq<Arg>) returns (ap: seq<Arg>)
    requires sink.Valid() && RenderSigned(f, args).Rendered?
    requires sink.Room(|RenderSigned(f, args).text|)
    modifies sink, sink.str, sink.con
    ensures sink.Valid()
    ensures sink.stream == old(sink.stream) + RenderSigned(f, args).text && ap == RenderSigned(f, args).rest
  {
    hide NumberField, Numeral, ToInt64, ToUint64, NegateLong;
    var n := GetInt(f.lflag, args).value;
    SignAndMagnitude(n);
    ap := args[1..];
    var num: uint64 := ToUint64(n);
    FieldPrefix(if n < 0 then "-" else "", Abs(n), 10, f, ap);
    if ToInt64(num) < 0 {
      sink.Put('-');
      num := ToUint64(NegateLong(ToInt64(num)));
    }
    PutNumber(sink, num, 10, f);
  }

  /** `case 'u'`, `case 'o'` and `case 'x'` */
  method PutUnsigned(sink: Sink, base: int, f: Field, args: seq<Arg>) returns (ap: seq<Arg>)
    requires sink.Valid() && 2 <= base <= 16 && RenderUnsigned(base, f, args).Rendered?
    requires sink.Room(|RenderUnsigned(base, f, args).text|)
    modifies sink, sink.str, sink.con
    ensures sink.Valid()
    ensures sink.stream == old(sink.stream) + RenderUnsigned(base, f, args).text
    ensures ap == RenderUnsigned(base, f, args).rest
  {
    var n := GetUint(f.lflag, args).value;
    ap := args[1..];
    FieldPrefix("", n, base, f, ap);
    PutNumber(sink, n, base, f);
  }

  /** `case 'p'` */
  method PutPointer(sink: Sink, num: uint64, f: Field)
    requires sink.Valid() && NumberField("0x", num, 16, f, []).Rendered?
    requires sink.Room(|NumberField("0x", num, 16, f, []).text|)
    modifies sink, sink.str, sink.con
    ensures sink.Valid()
    ensures sink.stream == old(sink.stream) + NumberField("0x", num, 16, f, []).text
  {
    hide NumberField, Numeral;
    FieldPrefix("0x", num, 16, f, []);
    sink.Put('0');
    sink.Put('x');
    PutNumber(sink, num, 16, f);
  }

  /** `case 'e'`: the name of an error, or its code when it has none. */
  method PutError(sink: Sink, arg: int32)
    requires sink.Valid() && arg != INT_MIN
    requires sink.Room(|ErrorText(if arg < 0 then -arg else arg)|)
    modifies sink, sink.str, sink.con
    ensures sink.Valid()
    ensures sink.stream == old(sink.stream) + ErrorText(if arg < 0 then -arg else arg)
    decreases 1, 0
  {
    hide Numeral, ErrorString;
    var err := arg;
    if err < 0 {
      err := -err;
    }
    if err > MAXERROR || err == 0 {
      PutErrorCode(sink, err);
    } else {
      PutErrorName(sink, err);
    }
  }

  method PutErrorCode(sink: Sink, err: int32)
    requires sink.Valid() && 0 <= err && sink.Room(|"error " + Numeral(err, 10)|)
    modifies sink, sink.str, sink.con
    ensures sink.Valid() && sink.stream == old(sink.stream) + ("error " + Numeral(err, 10))
    decreases 0, 5
  {
    hide Render, PrintsError, Numeral, Chars;
    ErrorCodeFormat(err);
    Printfmt(sink, "error %d\0", [Word32(err)]);
  }

  lemma ErrorNameIsCString(err: int)
    requires 1 <= err <= MAXERROR
    ensures IsCString(ErrorString(err) + "\0") && |ErrorString(err)| < 20
  {
    match err
    case 1 => AppendNul("unspecified error");
    case 2 => AppendNul("bad process");
    case 3 => AppendNul("invalid parameter");
    case 4 => AppendNul("out of memory");
    case 5 => AppendNul("out of processes");
    case 6 => AppendNul("segmentation fault");
  }

  lemma AppendNul(s: string)
    requires forall i :: 0 <= i < |s| ==> s[i] != '\0'
    ensures IsCString(s + "\0")
  {
  }

  method PutErrorName(sink: Sink, err: int32)
    requires sink.Valid() && 1 <= err <= MAXERROR && sink.Room(|ErrorString(err)|)
    modifies sink, sink.str, sink.con
    ensures sink.Valid() && sink.stream == old(sink.stream) + ErrorString(err)
    decreases 0, 5
  {
    hide Render, PrintsError, ErrorString;
    ErrorNameIsCString(err);
    var name: CString := ErrorString(err) + "\0";
    assert Chars(name) == ErrorString(err);
    ErrorNameFormat(name);
    Printfmt(sink, "%s\0", [Text(Some(name))]);
  }

  /** The conversions of the switch; `ap` is what is left of the arguments. */
  method PutConversion(sink: Sink, ch: char, f: Field, args: seq<Arg>) returns (ap: seq<Arg>)
    requires sink.Valid() && Recognised(ch) && Convert(ch, f, args).Rendered?
    requires sink.Room(|Convert(ch, f, args).text|)
    modifies sink, sink.str, sink.con
    ensures sink.Valid()
    ensures sink.stream == old(sink.stream) + Convert(ch, f, args).text && ap == Convert(ch, f, args).rest
    decreases if ch == 'e' then 1 else 0, 1
  {
    hide NumberField, StringText, RenderSigned, RenderUnsigned, ErrorText, Numeral, Shown;
    ap := args;
    match ch {
      case 'c' =>
        sink.Put(ToChar(ToInt32(args[0].w)));
        ap := args[1..];
      case 'e' =>
        PutError(sink, ToInt32(args[0].w));
        ap := args[1..];
      case 's' =>
        PutString(sink, args[0].p, f);
        ap := args[1..];
      case 'd' =>
        ap := PutSigned(sink, f, args);
      case 'u' =>
        ap := PutUnsigned(sink, 10, f, args);
      case 'o' =>
        ap := PutUnsigned(sink, 8, f, args);
      case 'p' =>
        FieldPrefix("0x", args[0].d, 16, f, args[1..]);
        FieldPrefix("0x", args[0].d, 16, f, []);
        PutPointer(sink, args[0].d, f);
        ap := args[1..];
      case 'x' =>
        ap := PutUnsigned(sink, 16, f, args);
      case _ =>
        sink.Put('%');
    }
  }

  /** `printfmt` */
  method Printfmt(sink: Sink, fmt: CString, args: seq<Arg>)
    requires sink.Valid() && Render(Chars(fmt), args).Rendered?
    requires sink.Room(|Render(Chars(fmt), args).text|)
    modifies sink, sink.str, sink.con
    ensures sink.Valid()
    ensures sink.stream == old(sink.stream) + Render(Chars(fmt), args).text
    decreases if PrintsError(Chars(fmt)) then 1 else 0, 4
  {
    Vprintfmt(sink, fmt, args);
  }

  /** The memory from `pos` on, without the terminator. */
  function From(fmt: CString, pos: nat): string
    requires pos < |fmt|
  {
    fmt[pos..|fmt| - 1]
  }

  /** What has been put, and what the rest of the format will put, make up `total`. */
  ghost predicate Progress(sink: Sink, fmt: CString, pos: nat, ap: seq<Arg>, total: string)
    reads sink
    requires pos < |fmt|
  {
    && Render(From(fmt, pos), ap).Rendered?
    && sink.stream + Render(From(fmt, pos), ap).text == total
    && (PrintsError(From(fmt, pos)) ==> PrintsError(Chars(fmt)))
  }

  /** `vprintfmt`: the characters put are the rendering of the format. */
  method Vprintfmt(sink: Sink, fmt: CString, args: seq<Arg>)
    requires sink.Valid() && Render(Chars(fmt), args).Rendered?
    requires sink.Room(|Render(Chars(fmt), args).text|)
    modifies sink, sink.str, sink.con
    ensures sink.Valid()
    ensures sink.stream == old(sink.stream) + Render(Chars(fmt), args).text
    decreases if PrintsError(Chars(fmt)) then 1 else 0, 3
  {
    hide Render, PrintsError;
    ghost var total := sink.stream + Render(Chars(fmt), args).text;
    var pos, ap := 0, args;
    assert From(fmt, 0) == Chars(fmt);
    while true
      invariant pos < |fmt| && sink.Valid() && Progress(sink, fmt, pos, ap, total)
      decreases |fmt| - pos
    {
      var ch: char;
      ch, pos := PutLiterals(sink, fmt, pos, ap, total);
      if ch == '\0' {
        return;
      }
      pos, ap := PutEscape(sink, fmt, pos, ap, total);
    }
  }

  /** `while ((ch = *fmt ++) != '%')`: copies up to the next escape or the end. */
  method PutLiterals(sink: Sink, fmt: CString, start: nat, ap: seq<Arg>, ghost total: string)
    returns (ch: char, pos: nat)
    requires start < |fmt| && sink.Valid() && Progress(sink, fmt, start, ap, total) && |total| <= INT_MAX
    modifies sink, sink.str, sink.con
    ensures start < pos <= |fmt| && ch == fmt[pos - 1] && sink.Valid()
    ensures ch == '%' || ch == '\0'
    ensures ch == '\0' ==> sink.stream == total
    ensures ch == '%' ==> pos < |fmt| && Progress(sink, fmt, pos - 1, ap, total)
  {
    hide Render, PrintsError;
    ch, pos := fmt[start], start + 1;
    while ch != '%'
      invariant start < pos <= |fmt| && ch == fmt[pos - 1] && sink.Valid()
      invariant Progress(sink, fmt, pos - 1, ap, total)
      decreases |fmt| - pos
    {
      if ch == '\0' {
        RenderEmpty(ap);
        return;
      }
      LiteralProgress(From(fmt, pos - 1), ap);
      assert From(fmt, pos - 1)[1..] == From(fmt, pos);
      sink.Put(ch);
      ch, pos := fmt[pos], pos + 1;
    }
  }

  lemma LiteralProgress(s: string, ap: seq<Arg>)
    requires s != "" && s[0] != '%'
    ensures Render(s, ap) == Prepend([s[0]], Render(s[1..], ap))
    ensures PrintsError(s) == PrintsError(s[1..])
  {
  }

  /** The parts of an escape at the front of a format. */
  lemma EscapeParts(s: string, ap: seq<Arg>, n: nat)
    requires s != "" && s[0] == '%' && n == ModifierRun(s[1..]) && Render(s, ap).Rendered?
    ensures n < |s| && AllModifiers(s[1..1 + n]) && '%' !in s[1..1 + n]
    ensures Evaluate(s[1..1 + n], PLAIN, ap).Some?
    ensures First(s) == if 1 + n == |s| then Unfinished(s[1..1 + n]) else Escape(s[1..1 + n], s[1 + n])
    ensures 1 + n < |s| ==> !IsModifier(s[1 + n])
  {
    hide Render;
    RenderFirst(s, ap);
    assert s[1..][..n] == s[1..1 + n];
    assert n + 1 == |s| ==> s[1..] == s[1..1 + n];
  }

  /** An escape with a recognised conversion. */
  lemma EscapeConverts(s: string, ap: seq<Arg>, n: nat, f: Field, rest: seq<Arg>)
    requires s != "" && s[0] == '%' && n == ModifierRun(s[1..]) && Render(s, ap).Rendered?
    requires 1 + n < |s| && Recognised(s[1 + n]) && Evaluate(s[1..1 + n], PLAIN, ap) == Some((f, rest))
    ensures Convert(s[1 + n], f, rest).Rendered?
    ensures Render(s, ap) ==
            Prepend(Convert(s[1 + n], f, rest).text, Render(s[2 + n..], Convert(s[1 + n], f, rest).rest))
    ensures PrintsError(s[2 + n..]) ==> PrintsError(s)
    ensures s[1 + n] == 'e' ==> PrintsError(s)
  {
    hide Render, PrintsError, Evaluate, ModifierRun, Convert;
    EscapeParts(s, ap, n);
    RenderFirst(s, ap);
    ErrorTail(s);
  }

  /** An escape that ends in no conversion: a `%`, and then the rest of it as literals. */
  lemma EscapeRewinds(s: string, ap: seq<Arg>, n: nat, f: Field, rest: seq<Arg>)
    requires s != "" && s[0] == '%' && n == ModifierRun(s[1..]) && Render(s, ap).Rendered?
    requires 1 + n < |s| ==> !Recognised(s[1 + n])
    requires n < |s| && Evaluate(s[1..1 + n], PLAIN, ap) == Some((f, rest))
    ensures Render(s, ap) == Prepend("%", Render(s[1..], rest))
    ensures PrintsError(s[1..]) ==> PrintsError(s)
  {
    hide Render, PrintsError, Evaluate, ModifierRun;
    EscapeParts(s, ap, n);
    RenderFirst(s, ap);
    var i := First(s);
    var t := if i.Escape? then s[1..2 + n] else s[1..];
    assert t == if i.Escape? then s[1..1 + n] + [s[1 + n]] else s[1..1 + n];
    var tail := s[|UnparseItem(i)|..];
    assert UnparseItem(i) == "%" + t;
    assert s[1..] == t + tail;
    LiteralRun(t, tail, rest);
    LiteralRunError(t, tail);
    PrependTwice("%", t, Render(tail, rest));
    ErrorTail(s);
  }

  lemma ErrorTail(s: string)
    requires s != ""
    ensures PrintsError(s[|UnparseItem(First(s))|..]) ==> PrintsError(s)
    ensures First(s).Escape? && First(s).conv == 'e' ==> PrintsError(s)
  {
  }

  /** Where the parts of an escape are in the format. */
  lemma SameModifiers(fmt: CString, start: nat, n: nat)
    requires 1 <= start < |fmt| && start + n < |fmt|
    ensures var s := From(fmt, start - 1);
      && s[1..1 + n] == fmt[start..start + n]
      && s[1..] == From(fmt, start)
      && (1 + n < |s| ==> s[1 + n] == fmt[start + n] && s[2 + n..] == From(fmt, start + n + 1))
      && (1 + n == |s| <==> fmt[start + n] == '\0')
    ensures '%' !in fmt[start..start + n] ==> forall i :: start <= i < start + n ==> fmt[i] != '%'
  {
    var s := From(fmt, start - 1);
    SubSlice(fmt, start - 1, |fmt| - 1, 1, |s|);
    if start + n < |fmt| - 1 {
      SubSlice(fmt, start - 1, |fmt| - 1, 2 + n, |s|);
    }
    SubSlice(fmt, start - 1, |fmt| - 1, 1, 1 + n);
    assert forall i :: start <= i < start + n ==> fmt[i] == fmt[start..start + n][i - start];
  }

  /** One turn of the outer loop from the character after the `%` on. An escape that ends in
      no conversion puts the `%` and scans back to it. */
  method PutEscape(sink: Sink, fmt: CString, start: nat, args: seq<Arg>, ghost total: string)
    returns (pos: nat, ap: seq<Arg>)
    requires 1 <= start < |fmt| && fmt[start - 1] == '%' && sink.Valid()
    requires Progress(sink, fmt, start - 1, args, total) && |total| <= INT_MAX
    modifies sink, sink.str, sink.con
    ensures start <= pos < |fmt| && sink.Valid() && Progress(sink, fmt, pos, ap, total)
    decreases if PrintsError(Chars(fmt)) then 1 else 0, 2
  {
    hide Render, PrintsError, Evaluate, ModifierRun, Convert;
    ghost var s := From(fmt, start - 1);
    ghost var n := ModifierRun(s[1..]);
    EscapeParts(s, args, n);
    SameModifiers(fmt, start, n);
    var f, ch, rest;
    f, ch, pos, rest := ScanModifiers(fmt, start, args, start + n);
    if Recognised(ch) {
      EscapeConverts(s, args, n, f, rest);
      PrependedLength(Convert(ch, f, rest).text, Render(From(fmt, pos), Convert(ch, f, rest).rest));
      ap := PutConversion(sink, ch, f, rest);
    } else {
      EscapeRewinds(s, args, n, f, rest);
      ap := rest;
      sink.Put('%');
      pos := Rewind(fmt, pos, start);
    }
  }

  lemma PrependedLength(s: string, r: Rendered)
    ensures r.Rendered? ==> Prepend(s, r).text == s + r.text
  {
  }

  /** `for (fmt --; fmt[-1] != '%'; fmt --)` stops at the escape's own `%`, and reads
      nothing before it. */
  method Rewind(fmt: CString, end: nat, ghost start: nat) returns (pos: nat)
    requires 1 <= start < end <= |fmt| && fmt[start - 1] == '%'
    requires forall i :: start <= i < end - 1 ==> fmt[i] != '%'
    ensures pos == start
  {
    pos := end - 1;
    while fmt[pos - 1] != '%'
      invariant start <= pos < end
      decreases pos
    {
      pos := pos - 1;
    }
  }

  const E_INVAL := 3

  /** The array after `vsnprintf`: what fits of the text, a NUL, and then the old cells. */
  function Stored(before: string, size: nat, text: string): (r: string)
    requires 1 <= size <= |before|
    ensures |r| == |before|
  {
    var n := Min(|text|, size - 1);
    text[..n] + ['\0'] + before[n + 1..]
  }

  /** `vsnprintf` */
  method Vsnprintf(str: array?<char>, size: uint32, fmt: CString, ap: seq<Arg>) returns (cnt: int32)
    requires str != null ==> size <= str.Length
    requires str != null && size > 0 ==>
      Render(Chars(fmt), ap).Rendered? && |Render(Chars(fmt), ap).text| <= INT_MAX
    modifies str
    ensures str == null || size == 0 ==> cnt == -3 && (str != null ==> str[..] == old(str[..]))
    ensures str != null && size > 0 ==>
      cnt == |Render(Chars(fmt), ap).text| && str[..] == Stored(old(str[..]), size, Render(Chars(fmt), ap).text)
    ensures str != null && size > 0 ==>
      var text := Render(Chars(fmt), ap).text; var n := if |text| < size then |text| else size - 1;
      str[..n] == text[..n] && str[n] == '\0' && str[n + 1..] == old(str[n + 1..])
  {
    hide Render, Stored;
    if str == null || 0 > size - 1 {
      return -E_INVAL;
    }
    var b := new Sink.Sprintbuf(str, size - 1);
    Vprintfmt(b, fmt, ap);
    assert b.stream == Render(Chars(fmt), ap).text;
    StoreNul(old(str[..]), size, b.stream);
    ghost var filled := str[..];
    str[b.buf] := '\0';
    assert str[..] == filled[b.buf := '\0'];
    StoredParts(old(str[..]), size, b.stream);
    return b.cnt;
  }

  lemma StoredParts(before: string, size: nat, text: string)
    requires 1 <= size <= |before|
    ensures var r := Stored(before, size, text); var n := if |text| < size then |text| else size - 1;
      r[..n] == text[..n] && r[n] == '\0' && r[n + 1..] == before[n + 1..]
  {
  }

  lemma StoreNul(before: string, size: nat, text: string)
    requires 1 <= size <= |before|
    ensures var n := Min(|text|, size - 1);
      (text[..n] + before[n..])[n := '\0'] == Stored(before, size, text)
  {
  }
}
