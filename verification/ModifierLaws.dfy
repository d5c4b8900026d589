/** What the modifiers of an escape mean when they are written in the usual order. */
module ModifierLaws {
  import opened CTypes
  import opened Numerals
  import opened Format

  predicate AllFlags(s: string) { forall i :: 0 <= i < |s| ==> s[i] in {'-', '0', '#'} }

  /** The last padding flag decides. */
  function LastPad(flags: string, padc: char): char {
    if flags == "" then padc
    else if flags[|flags| - 1] == '#' then LastPad(flags[..|flags| - 1], padc)
    else flags[|flags| - 1]
  }

  lemma {:induction false} LastPadFirst(flags: string, padc: char)
    requires flags != ""
    ensures LastPad(flags, padc) == LastPad(flags[1..], if flags[0] == '#' then padc else flags[0])
  {
    if |flags| > 1 {
      LastPadFirst(flags[..|flags| - 1], padc);
      assert flags[..|flags| - 1][1..] == flags[1..][..|flags| - 2];
    } else {
      assert flags[..0] == "";
    }
  }

  lemma {:induction false} EvaluateFlags(flags: string, tail: string, f: Field, args: seq<Arg>)
    requires AllFlags(flags)
    ensures Evaluate(flags + tail, f, args) ==
            Evaluate(tail, f.(padc := LastPad(flags, f.padc), alt := f.alt || '#' in flags), args)
    decreases |flags|
  {
    if flags == "" {
      assert flags + tail == tail;
    } else {
      var c := flags[0];
      var g := if c == '-' || c == '0' then f.(padc := c) else f.(alt := true);
      assert (flags + tail)[1..] == flags[1..] + tail;
      assert Evaluate(flags + tail, f, args) == Evaluate(flags[1..] + tail, g, args);
      LastPadFirst(flags, f.padc);
      assert flags == [c] + flags[1..];
      EvaluateFlags(flags[1..], tail, g, args);
    }
  }

  lemma EvaluateNumber(n: int, tail: string, f: Field, args: seq<Arg>)
    requires 1 <= n <= MAX_NUMBER && (tail == "" || !('0' <= tail[0] <= '9'))
    ensures Evaluate(Numeral(n, 10) + tail, f, args) == Evaluate(tail, SetNumber(f, n), args)
  {
    var s := Numeral(n, 10);
    NumeralValue(n, 10);
    assert (s + tail)[..|s|] == s && (s + tail)[|s|..] == tail;
    DecimalNumeral(n);
    RunIs(s, tail);
    assert Modify(s + tail, f, args) == Some((SetNumber(f, n), args, |s|));
  }

  lemma DecimalNumeral(n: nat)
    ensures forall i :: 0 <= i < |Numeral(n, 10)| ==> '0' <= Numeral(n, 10)[i] <= '9'
    ensures n >= 1 ==> Numeral(n, 10)[0] != '0'
  {
  }

  lemma RunIs(s: string, tail: string)
    requires forall i :: 0 <= i < |s| ==> '0' <= s[i] <= '9'
    requires tail == "" || !('0' <= tail[0] <= '9')
    ensures DecimalRun(s + tail) == |s|
  {
    hide DecimalRun;
    var t := s + tail;
    assert |s| < |t| ==> t[|s|] == tail[0];
  }

  lemma {:induction false} EvaluateLongs(ls: string, f: Field, args: seq<Arg>)
    requires (forall i :: 0 <= i < |ls| ==> ls[i] == 'l') && 0 <= f.lflag && f.lflag + |ls| <= INT_MAX
    ensures Evaluate(ls, f, args) == Some((f.(lflag := f.lflag + |ls|), args))
    decreases |ls|
  {
    if ls != "" {
      EvaluateLongs(ls[1..], f.(lflag := f.lflag + 1), args);
    }
  }

  function WidthText(width: Option<int>): string
    requires width.Some? ==> width.value >= 1
  {
    if width.Some? then Numeral(width.value, 10) else ""
  }

  function PrecisionText(precision: Option<int>): string
    requires precision.Some? ==> precision.value >= 1
  {
    if precision.Some? then "." + Numeral(precision.value, 10) else ""
  }

  /** Flags, width, precision and length: the field they describe. Each part may be missing; a
      precision without a width leaves the width 0. */
  lemma StandardModifiers(flags: string, width: Option<int>, precision: Option<int>, ls: string, args: seq<Arg>)
    requires AllFlags(flags)
    requires width.Some? ==> 1 <= width.value <= MAX_NUMBER
    requires precision.Some? ==> 1 <= precision.value <= MAX_NUMBER
    requires (forall i :: 0 <= i < |ls| ==> ls[i] == 'l') && |ls| <= INT_MAX
    ensures var mods := flags + (WidthText(width) + (PrecisionText(precision) + ls));
      Evaluate(mods, PLAIN, args) ==
      Some((Field(LastPad(flags, ' '),
                  if width.Some? then width.value else if precision.Some? then 0 else -1,
                  if precision.Some? then precision.value else -1,
                  |ls|, '#' in flags), args))
  {
    hide Evaluate, Numeral, LastPad;
    var tail := PrecisionText(precision) + ls;
    EvaluateFlags(flags, WidthText(width) + tail, PLAIN, args);
    var f := PLAIN.(padc := LastPad(flags, ' '), alt := '#' in flags);
    if width.Some? {
      EvaluateNumber(width.value, tail, f, args);
      EvaluatePrecision(precision, ls, f.(width := width.value), args);
    } else {
      assert WidthText(width) + tail == tail;
      EvaluatePrecision(precision, ls, f, args);
    }
  }

  lemma EvaluatePrecision(precision: Option<int>, ls: string, f: Field, args: seq<Arg>)
    requires precision.Some? ==> 1 <= precision.value <= MAX_NUMBER
    requires (forall i :: 0 <= i < |ls| ==> ls[i] == 'l') && |ls| <= INT_MAX && f.lflag == 0
    ensures Evaluate(PrecisionText(precision) + ls, f, args) ==
            if precision.None? then Some((f.(lflag := |ls|), args))
            else Some((f.(width := Max(f.width, 0), precision := precision.value, lflag := |ls|), args))
  {
    hide Evaluate, Numeral;
    if precision.Some? {
      var p := precision.value;
      var g := f.(width := Max(f.width, 0));
      assert PrecisionText(precision) + ls == "." + (Numeral(p, 10) + ls);
      EvaluateDot(Numeral(p, 10) + ls, f, args);
      EvaluateNumber(p, ls, g, args);
      EvaluateLongs(ls, g.(precision := p), args);
    } else {
      assert PrecisionText(precision) + ls == ls;
      EvaluateLongs(ls, f, args);
    }
  }

  lemma EvaluateDot(tail: string, f: Field, args: seq<Arg>)
    ensures Evaluate("." + tail, f, args) ==
            Evaluate(tail, if f.width < 0 then f.(width := 0) else f, args)
  {
  }

  /** A precision of zero cannot be written in digits: the `0` is taken for a padding flag. */
  lemma ZeroPrecisionIsAFlag(tail: string, f: Field, args: seq<Arg>)
    ensures Evaluate(".0" + tail, f, args) ==
            Evaluate(tail, f.(width := Max(f.width, 0), padc := '0'), args)
  {
    hide Evaluate;
    var t := "0" + tail;
    assert ".0" + tail == "." + t;
    EvaluateDot(t, f, args);
    EvaluateFlags("0", tail, f.(width := Max(f.width, 0)), args);
  }

  /** But it can be passed: a `*` after the dot sets the precision, whatever the argument is. */
  lemma StarPrecision(v: uint32, tail: string, f: Field, args: seq<Arg>)
    ensures Evaluate(".*" + tail, f, [Word32(v)] + args) ==
            Evaluate(tail, f.(width := Max(f.width, 0), precision := ToInt32(v)), args)
  {
    hide Evaluate;
    var t := "*" + tail;
    assert ".*" + tail == "." + t;
    EvaluateDot(t, f, [Word32(v)] + args);
    EvaluateStar(v, tail, f.(width := Max(f.width, 0)), args);
  }

  lemma EvaluateStar(v: uint32, tail: string, f: Field, args: seq<Arg>)
    ensures Evaluate("*" + tail, f, [Word32(v)] + args) == Evaluate(tail, SetNumber(f, ToInt32(v)), args)
  {
    hide DecimalRun, Horner, ToInt32, SetNumber;
    var t, all := "*" + tail, [Word32(v)] + args;
    assert t[1..] == tail && all[1..] == args;
    assert Modify(t, f, all) == Some((SetNumber(f, ToInt32(v)), args, 1));
  }
}
