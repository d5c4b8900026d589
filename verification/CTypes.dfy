/** C integer types of the rv64 build, as subset types: assigning to a variable of one of
    these types is the proof that the C expression does not overflow there. Conversions
    that C defines (modulo 2^n) are the functions To...

    A C `char` is a Dafny `char`; storing an `int` in one keeps its low eight bits. */
module CTypes {
  const INT_MIN := -0x8000_0000
  const INT_MAX := 0x7fff_ffff
  const LONG_MIN := -0x8000_0000_0000_0000
  const LONG_MAX := 0x7fff_ffff_ffff_ffff
  const TWO_32 := 0x1_0000_0000
  const TWO_64 := 0x1_0000_0000_0000_0000

  type int32 = x: int | INT_MIN <= x <= INT_MAX
  type uint32 = x: int | 0 <= x < TWO_32
  type int64 = x: int | LONG_MIN <= x <= LONG_MAX
  type uint64 = x: int | 0 <= x < TWO_64

  function ToUint32(x: int): uint32 { x % TWO_32 }

  function ToUint64(x: int): uint64 { x % TWO_64 }

  function ToInt32(x: int): int32 {
    var u := x % TWO_32;
    if u <= INT_MAX then u else u - TWO_32
  }

  function ToInt64(x: int): int64 {
    var u := x % TWO_64;
    if u <= LONG_MAX then u else u - TWO_64
  }

  /** The negation of a `long`, which wraps for the smallest one. */
  function NegateLong(x: int): int64 { ToInt64(-x) }

  /** Conversions drop whole multiples of 2^32 and 2^64. */
  lemma Wraps(v: int, k: int)
    ensures 0 <= v <= 0xffff_ffff ==> ToUint32(v + k * 0x1_0000_0000) == v
    ensures 0 <= v <= 0xffff_ffff_ffff_ffff ==> ToUint64(v + k * 0x1_0000_0000_0000_0000) == v
    ensures -0x8000_0000 <= v <= 0x7fff_ffff ==> ToInt32(v + k * 0x1_0000_0000) == v
    ensures -0x8000_0000_0000_0000 <= v <= 0x7fff_ffff_ffff_ffff ==>
            ToInt64(v + k * 0x1_0000_0000_0000_0000) == v
  {
    Wraps32(v, k);
    Wraps64(v, k);
  }

  lemma Wraps32(v: int, k: int)
    ensures 0 <= v <= 0xffff_ffff ==> (v + k * 0x1_0000_0000) % 0x1_0000_0000 == v
    ensures -0x8000_0000 <= v < 0 ==> (v + k * 0x1_0000_0000) % 0x1_0000_0000 == v + 0x1_0000_0000
  {
  }

  lemma Wraps64(v: int, k: int)
    ensures 0 <= v <= 0xffff_ffff_ffff_ffff ==> (v + k * 0x1_0000_0000_0000_0000) % 0x1_0000_0000_0000_0000 == v
    ensures -0x8000_0000_0000_0000 <= v < 0 ==>
            (v + k * 0x1_0000_0000_0000_0000) % 0x1_0000_0000_0000_0000 == v + 0x1_0000_0000_0000_0000
  {
  }

  lemma WrapNear(x: int)
    requires -TWO_64 <= x < TWO_64
    ensures x % TWO_64 == if x < 0 then x + TWO_64 else x
  {
  }

  /** A 64-bit register holds a `long` and its magnitude. */
  lemma SignAndMagnitude(n: int64)
    ensures ToInt64(ToUint64(n)) == n
    ensures ToUint64(if n < 0 then NegateLong(n) else n) == Abs(n)
  {
    WrapNear(n);
    WrapNear(ToUint64(n));
    WrapNear(Abs(n));
    WrapNear(NegateLong(n));
  }

  lemma SelfNegation(u: uint64)
    ensures NegateLong(u) == ToInt64(u) <==> u == 0 || u == LONG_MAX + 1
  {
    var x: int := u;
    WrapNear(x);
    WrapNear(-x);
  }

  function Abs(x: int): nat { if x < 0 then -x else x }

  function ToChar(x: int): char { (x % 256) as char }

  function Min(a: int, b: int): int { if a <= b then a else b }

  function Max(a: int, b: int): int { if a <= b then b else a }

  datatype Option<+T> = None | Some(value: T)

  /** A NUL-terminated string together with its terminator, and nothing after it. */
  predicate IsCString(s: string) {
    |s| > 0 && s[|s| - 1] == '\0' && forall i :: 0 <= i < |s| - 1 ==> s[i] != '\0'
  }

  type CString = s: string | IsCString(s) witness "\0"

  function Chars(s: CString): string { s[..|s| - 1] }

  /** `n` copies of `c`; none when `n` is not positive. */
  function Repeat(c: char, n: int): (s: string)
    ensures |s| == Max(n, 0)
    ensures forall i :: 0 <= i < |s| ==> s[i] == c
    decreases n
  {
    if n <= 0 then "" else Repeat(c, n - 1) + [c]
  }
}
