/** Properties of formats that hold for every format string and argument list. */
module FormatLaws {
  import opened CTypes
  import opened Numerals
  import opened Format

  /** Parsing loses nothing, and always gives a well-formed item list. */
  lemma {:induction false} ParseWellFormed(s: string)
    ensures WellFormed(Parse(s))
    ensures Unparse(Parse(s)) == s
    decreases |s|
  {
    if s != "" {
      var i, tail := First(s), s[|UnparseItem(First(s))|..];
      FirstIsPrefix(s);
      ParseWellFormed(tail);
      ConsItem(i, Parse(tail));
    }
  }

  lemma FirstIsPrefix(s: string)
    requires s != ""
    ensures var i := First(s); var n := |UnparseItem(i)|;
      s == UnparseItem(i) + s[n..] && WellFormedItem(i, n == |s|)
  {
    assert s == [s[0]] + s[1..];
    if s[0] == '%' {
      var t := s[1..];
      var n := ModifierRun(t);
      assert t[..n] == s[1..1 + n];
      if n < |t| {
        assert s == "%" + s[1..1 + n] + [s[1 + n]] + s[2 + n..];
      } else {
        assert t[..n] == t;
      }
    }
  }

  lemma ConsItem(i: Item, items: seq<Item>)
    requires WellFormed(items) && WellFormedItem(i, items == [])
    ensures WellFormed([i] + items)
    ensures Unparse([i] + items) == UnparseItem(i) + Unparse(items)
  {
  }

  // ---------------------------------------------------- parsing and printing

  /** Every well-formed item list is the parse of the format it is written as. */
  lemma {:induction false} ParseUnparse(items: seq<Item>)
    requires WellFormed(items)
    ensures Parse(Unparse(items)) == items
  {
    hide First, WellFormedItem, UnparseItem;
    if items != [] {
      var i, rest := items[0], items[1..];
      assert WellFormedItem(items[0], 0 == |items| - 1);
      forall k | 0 <= k < |rest| ensures WellFormedItem(rest[k], k == |rest| - 1) {
        assert WellFormedItem(items[k + 1], k + 1 == |items| - 1);
      }
      ParseUnparse(rest);
      UnparseEmpty(rest);
      ParseCons(i, Unparse(rest));
      assert items == [i] + rest;
    }
  }

  lemma UnparseEmpty(items: seq<Item>)
    ensures Unparse(items) == "" <==> items == []
  {
  }

  lemma FirstOf(i: Item, tail: string)
    requires WellFormedItem(i, tail == "")
    ensures First(UnparseItem(i) + tail) == i
  {
    match i
    case Literal(c) =>
    case Unfinished(mods) => FirstOfUnfinished(mods);
    case Escape(mods, conv) => FirstOfEscape(mods, conv, tail);
  }

  lemma FirstOfUnfinished(mods: string)
    requires AllModifiers(mods)
    ensures First("%" + mods + "") == Unfinished(mods)
  {
  }

  lemma FirstOfEscape(mods: string, conv: char, tail: string)
    requires AllModifiers(mods) && !IsModifier(conv)
    ensures First("%" + mods + [conv] + tail) == Escape(mods, conv)
  {
    var s := "%" + mods + [conv] + tail;
    assert s[1..] == mods + ([conv] + tail);
    RunLength(mods, [conv] + tail);
    assert s[1..1 + |mods|] == mods;
  }

  lemma SubSlice<T>(a: seq<T>, lo: nat, hi: nat, i: nat, j: nat)
    requires lo <= hi <= |a| && i <= j <= hi - lo
    ensures a[lo..hi][i..j] == a[lo + i..lo + j]
  {
    var b := a[lo..hi];
    assert forall k :: i <= k < j ==> b[k] == a[lo + k];
    assert forall k :: 0 <= k < j - i ==> b[i..j][k] == b[i + k];
    assert b[i..j] == a[lo + i..lo + j];
  }

  lemma ParseCons(i: Item, tail: string)
    requires WellFormedItem(i, tail == "")
    ensures Parse(UnparseItem(i) + tail) == [i] + Parse(tail)
  {
    FirstOf(i, tail);
    assert (UnparseItem(i) + tail)[|UnparseItem(i)|..] == tail;
  }

  lemma {:induction false} RunLength(mods: string, tail: string)
    requires AllModifiers(mods)
    requires tail == "" || !IsModifier(tail[0])
    ensures ModifierRun(mods + tail) == |mods|
  {
    if mods == "" {
      assert mods + tail == tail;
    } else {
      assert (mods + tail)[1..] == mods[1..] + tail;
      RunLength(mods[1..], tail);
    }
  }

  // ------------------------------------------------------------- sequencing

  /** Rendering one format and then another on the arguments the first has left. */
  function RenderThen(s1: string, s2: string, args: seq<Arg>): Rendered {
    var r := Render(s1, args);
    if r.Undefined? then Undefined else Prepend(r.text, Render(s2, r.rest))
  }

  lemma {:induction false} ParseConcat(s1: string, s2: string)
    requires Complete(s1)
    ensures Parse(s1 + s2) == Parse(s1) + Parse(s2)
    decreases |s1|
  {
    if s1 == "" {
      assert s1 + s2 == s2;
    } else {
      var i := First(s1);
      var u := UnparseItem(i);
      var tail := s1[|u|..];
      FirstIsPrefix(s1);
      CompleteTail(i, tail, s1);
      ParseConcat(tail, s2);
      ParseCons(i, tail + s2);
      Assoc(u, tail, s2);
      Assoc([i], Parse(tail), Parse(s2));
    }
  }

  lemma Assoc<T>(a: seq<T>, b: seq<T>, c: seq<T>)
    ensures (a + b) + c == a + (b + c)
  {
  }

  /** `Complete` of a format is decided by its first item and the rest. */
  lemma CompleteTail(i: Item, tail: string, s: string)
    requires Parse(s) == [i] + Parse(tail)
    ensures Complete(s) <==> !i.Unfinished? && Complete(tail)
  {
    hide Parse;
    var items, rest := Parse(s), Parse(tail);
    assert items[0] == i;
    assert forall k :: 0 <= k < |rest| ==> rest[k] == items[k + 1];
  }

  lemma {:induction false} RenderItemsConcat(a: seq<Item>, b: seq<Item>, args: seq<Arg>)
    ensures RenderItems(a + b, args) ==
            var r := RenderItems(a, args);
            if r.Undefined? then Undefined else Prepend(r.text, RenderItems(b, r.rest))
  {
    if a == [] {
      assert a + b == b;
    } else {
      assert (a + b)[1..] == a[1..] + b;
      var r := RenderItem(a[0], args);
      if r.Rendered? {
        RenderItemsConcat(a[1..], b, r.rest);
        var m := RenderItems(a[1..], r.rest);
        if m.Rendered? {
          PrependTwice(r.text, m.text, RenderItems(b, m.rest));
        }
      }
    }
  }

  lemma PrependTwice(s: string, t: string, r: Rendered)
    ensures Prepend(s, Prepend(t, r)) == Prepend(s + t, r)
  {
  }

  /** A format that does not end inside an escape composes with every other format. */
  lemma Compositional(s1: string, s2: string, args: seq<Arg>)
    requires Complete(s1)
    ensures Render(s1 + s2, args) == RenderThen(s1, s2, args)
  {
    ParseConcat(s1, s2);
    RenderItemsConcat(Parse(s1), Parse(s2), args);
  }

  lemma RenderEmpty(args: seq<Arg>)
    ensures Render("", args) == Rendered("", args)
  {
  }

  /** Rendering a format renders its first item and then the rest. */
  lemma RenderFirst(s: string, args: seq<Arg>)
    requires s != ""
    ensures Render(s, args) ==
            var i := First(s);
            var r := RenderItem(i, args);
            if r.Undefined? then Undefined else Prepend(r.text, Render(s[|UnparseItem(i)|..], r.rest))
  {
  }

  lemma RenderCons(i: Item, tail: string, args: seq<Arg>)
    requires WellFormedItem(i, tail == "")
    ensures Render(UnparseItem(i) + tail, args) ==
            var r := RenderItem(i, args);
            if r.Undefined? then Undefined else Prepend(r.text, Render(tail, r.rest))
  {
    ParseCons(i, tail);
    assert ([i] + Parse(tail))[1..] == Parse(tail);
  }

  lemma LonePercent(args: seq<Arg>)
    ensures Render("%", args) == Rendered("%", args)
  {
    RenderFirst("%", args);
    assert First("%") == Unfinished("");
  }

  lemma PercentCompletes(i: Item, args: seq<Arg>)
    requires i.Unfinished? && AllModifiers(i.mods) && RenderItem(i, args).Rendered?
    ensures Render(UnparseItem(i) + "%", args) == Rendered("%", RenderItem(i, args).rest)
  {
    var e := Escape(i.mods, '%');
    assert UnparseItem(i) + "%" == UnparseItem(e) + "";
    RenderCons(e, "", args);
  }

  ghost predicate Swallows(s: string, args: seq<Arg>) {
    && Render(s + "%", args).Rendered?
    && RenderThen(s, "%", args).Rendered?
    && |Render(s + "%", args).text| < |RenderThen(s, "%", args).text|
  }

  /** A format that ends inside an escape does not compose: a following `%` completes it. */
  lemma {:induction false} IncompleteSwallows(s: string, args: seq<Arg>)
    requires !Complete(s) && Render(s, args).Rendered?
    ensures Swallows(s, args)
    decreases |s|
  {
    var i, tail := First(s), s[|UnparseItem(First(s))|..];
    FirstIsPrefix(s);
    CompleteTail(i, tail, s);
    RenderFirst(s, args);
    if i.Unfinished? {
      SwallowBase(i, args);
      assert s == UnparseItem(i);
    } else {
      IncompleteSwallows(tail, RenderItem(i, args).rest);
      SwallowStep(i, tail, args);
    }
  }

  lemma SwallowBase(i: Item, args: seq<Arg>)
    requires i.Unfinished? && AllModifiers(i.mods) && RenderItem(i, args).Rendered?
    ensures Swallows(UnparseItem(i), args)
  {
    PercentCompletes(i, args);
    RenderCons(i, "", args);
    assert UnparseItem(i) + "" == UnparseItem(i);
    LonePercent(RenderItem(i, args).rest);
  }

  lemma SwallowStep(i: Item, tail: string, args: seq<Arg>)
    requires WellFormedItem(i, false) && RenderItem(i, args).Rendered?
    requires Swallows(tail, RenderItem(i, args).rest)
    ensures Swallows(UnparseItem(i) + tail, args)
  {
    Assoc(UnparseItem(i), tail, "%");
    RenderCons(i, tail + "%", args);
    RenderCons(i, tail, args);
  }

  /** Exactly the formats that do not end inside an escape compose with every other format. */
  lemma CompositionalIff(s1: string, args: seq<Arg>)
    requires Render(s1, args).Rendered?
    ensures Complete(s1) <==> forall s2 :: Render(s1 + s2, args) == RenderThen(s1, s2, args)
  {
    if Complete(s1) {
      forall s2 ensures Render(s1 + s2, args) == RenderThen(s1, s2, args) {
        Compositional(s1, s2, args);
      }
    } else {
      IncompleteSwallows(s1, args);
      assert Render(s1 + "%", args) != RenderThen(s1, "%", args);
    }
  }

  // ---------------------------------------------------------------- verbatim

  predicate HasConversion(s: string) {
    var items := Parse(s);
    exists i :: 0 <= i < |items| && items[i].Escape? && Recognised(items[i].conv)
  }

  /** A format without a recognised conversion is printed as it is written. */
  lemma Verbatim(s: string, args: seq<Arg>)
    requires !HasConversion(s) && Render(s, args).Rendered?
    ensures Render(s, args).text == s
  {
    ParseWellFormed(s);
    VerbatimItems(Parse(s), args);
  }

  lemma {:induction false} VerbatimItems(items: seq<Item>, args: seq<Arg>)
    requires forall i :: 0 <= i < |items| ==> !(items[i].Escape? && Recognised(items[i].conv))
    requires RenderItems(items, args).Rendered?
    ensures RenderItems(items, args).text == Unparse(items)
  {
    if items != [] {
      VerbatimItems(items[1..], RenderItem(items[0], args).rest);
    }
  }

  /** Text without `%` is copied. */
  lemma {:induction false} LiteralRun(t: string, s: string, args: seq<Arg>)
    requires '%' !in t
    ensures Render(t + s, args) == Prepend(t, Render(s, args))
  {
    if t == "" {
      assert t + s == s;
      assert Render(s, args).Rendered? ==> "" + Render(s, args).text == Render(s, args).text;
    } else {
      var t' := t[1..];
      assert t + s == UnparseItem(Literal(t[0])) + (t' + s);
      LiteralRun(t', s, args);
      RenderCons(Literal(t[0]), t' + s, args);
      assert t == [t[0]] + t';
      if Render(s, args).Rendered? {
        Assoc([t[0]], t', Render(s, args).text);
      }
    }
  }

  /** An escape without modifiers. */
  lemma PlainEscape(conv: char, tail: string, args: seq<Arg>)
    requires Recognised(conv)
    ensures Render("%" + [conv] + tail, args) ==
            var r := Convert(conv, PLAIN, args);
            if r.Undefined? then Undefined else Prepend(r.text, Render(tail, r.rest))
  {
    var i := Escape("", conv);
    assert UnparseItem(i) == "%" + [conv];
    RenderCons(i, tail, args);
    assert Evaluate("", PLAIN, args) == Some((PLAIN, args));
  }

  // ------------------------------------------------------------- the %e escape

  /** The format prints error codes, for which `vprintfmt` calls itself. */
  ghost predicate PrintsError(s: string)
    decreases |s|
  {
    s != "" &&
    var i := First(s);
    (i.Escape? && i.conv == 'e') || PrintsError(s[|UnparseItem(i)|..])
  }

  lemma {:induction false} LiteralRunError(t: string, s: string)
    requires '%' !in t
    ensures PrintsError(t + s) == PrintsError(s)
  {
    hide PrintsError;
    if t == "" {
      assert t + s == s;
    } else {
      LiteralRunError(t[1..], s);
      LiteralError(t + s);
      assert (t + s)[1..] == t[1..] + s;
    }
  }

  lemma LiteralError(s: string)
    requires s != "" && s[0] != '%'
    ensures PrintsError(s) == PrintsError(s[1..])
  {
  }

  // ---------------------------------------------------------------- fields

  /** A `%s` field is as wide as the width and the text it shows require, and its padding is
      all on one side. */
  lemma StringFieldLaw(s: string, f: Field)
    ensures var t, r := Shown(s, f), StringText(s, f);
      var pads := |r| - |t|;
      && |t| == (if f.precision < 0 || f.precision > |s| then |s| else f.precision)
      && (forall i :: 0 <= i < |t| ==> t[i] == if f.alt && !(' ' <= s[i] <= '~') then '?' else s[i])
      && |r| == Max(f.width, |t|)
      && if f.width > 0 && f.padc != '-' then r[pads..] == t && forall i :: 0 <= i < pads ==> r[i] == f.padc
         else r[..|t|] == t && forall i :: |t| <= i < |r| ==> r[i] == ' '
  {
  }

  lemma PlainString(p: CString)
    requires |p| < INT_MAX
    ensures Convert('s', PLAIN, [Text(Some(p))]) == Rendered(Chars(p), [])
  {
  }

  /** A format with one `%s`. */
  lemma OneString(pre: string, post: string, p: CString)
    requires '%' !in pre && '%' !in post && |p| < INT_MAX
    ensures Render(pre + ("%s" + post), [Text(Some(p))]) == Rendered(pre + (Chars(p) + post), [])
  {
    hide Render, Convert;
    var args := [Text(Some(p))];
    LiteralOnly(post, []);
    PlainString(p);
    PlainEscape('s', post, args);
    assert "%" + ['s'] == "%s";
    LiteralRun(pre, "%s" + post, args);
  }

  lemma LiteralOnly(t: string, args: seq<Arg>)
    requires '%' !in t
    ensures Render(t, args) == Rendered(t, args)
  {
    hide Render;
    LiteralRun(t, "", args);
    RenderEmpty(args);
    assert t + "" == t;
  }

  lemma ConvertDecimal(n: int, args: seq<Arg>)
    requires 0 <= n <= INT_MAX && args == [Word32(n)]
    ensures Convert('d', PLAIN, args) == Rendered(Numeral(n, 10), [])
  {
    hide NumberField, Numeral;
    PlainField(n, []);
    assert GetInt(0, args) == Some(n);
    assert args[1..] == [];
  }

  lemma PlainField(n: uint64, rest: seq<Arg>)
    ensures NumberField("", n, 10, PLAIN, rest) == Rendered(Numeral(n, 10), rest)
  {
    hide Numeral;
    NumeralAtMost64(n, 10);
    var s := Numeral(n, 10);
    assert "" + Repeat(' ', -1 - |s|) + s == s;
  }

  /** A format with one `%d`. */
  lemma OneNumber(pre: string, post: string, n: int)
    requires '%' !in pre && '%' !in post && 0 <= n <= INT_MAX
    ensures Render(pre + ("%d" + post), [Word32(n)]) == Rendered(pre + (Numeral(n, 10) + post), [])
  {
    hide Render, Convert, Numeral;
    var args := [Word32(n)];
    LiteralOnly(post, []);
    ConvertDecimal(n, args);
    PlainEscape('d', post, args);
    assert "%" + ['d'] == "%d";
    LiteralRun(pre, "%d" + post, args);
  }

  /** `%e` prints an error code and its negation alike. */
  lemma ErrorSignIgnored(v: int32, f: Field, rest: seq<Arg>)
    requires v != INT_MIN
    ensures Convert('e', f, [Word32(ToUint32(v))] + rest) == Convert('e', f, [Word32(ToUint32(-v))] + rest)
    ensures Convert('e', f, [Word32(ToUint32(v))] + rest) == Rendered(ErrorText(if v < 0 then -v else v), rest)
  {
    hide ErrorText;
    SameInt(v);
    SameInt(-v);
    ConvertError(v, f, rest);
    ConvertError(-v, f, rest);
  }

  lemma SameInt(v: int32)
    ensures ToInt32(ToUint32(v)) == v
  {
  }

  lemma ConvertError(v: int32, f: Field, rest: seq<Arg>)
    requires v != INT_MIN
    ensures Convert('e', f, [Word32(ToUint32(v))] + rest) == Rendered(ErrorText(if v < 0 then -v else v), rest)
  {
    hide ErrorText, ToUint32, ToInt32;
    SameInt(v);
    assert ([Word32(ToUint32(v))] + rest)[1..] == rest;
  }
}
