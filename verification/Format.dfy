/** What a format string means: it is parsed into literals and escapes, an escape's
    modifiers are evaluated to a field description, and the field is rendered. `Undefined`
    stands for C undefined behaviour: a missing or mistyped argument, or an `int` that
    overflows. */
module Format {
  import opened CTypes
  import opened Numerals

  /** One variadic argument: `int` and `unsigned` are 32-bit words, `long`, `long long` and
      `void *` 64-bit words, and `char *` is NULL or a string. */
  datatype Arg = Word32(w: uint32) | Word64(d: uint64) | Text(p: Option<CString>)

  datatype Item =
    | Literal(c: char)
    | Escape(mods: string, conv: char)
    | Unfinished(mods: string)

  // ---------------------------------------------------------------- syntax

  predicate IsModifier(c: char) {
    c == '-' || '0' <= c <= '9' || c == '*' || c == '.' || c == '#' || c == 'l'
  }

  predicate AllModifiers(s: string) {
    forall i :: 0 <= i < |s| ==> IsModifier(s[i])
  }

  /** The length of the longest prefix of modifier characters. */
  function ModifierRun(s: string): (n: nat)
    ensures n <= |s| && AllModifiers(s[..n])
    ensures n < |s| ==> !IsModifier(s[n])
  {
    if s == "" || !IsModifier(s[0]) then 0 else 1 + ModifierRun(s[1..])
  }

  function UnparseItem(i: Item): string {
    match i
    case Literal(c) => [c]
    case Escape(mods, conv) => "%" + mods + [conv]
    case Unfinished(mods) => "%" + mods
  }

  /** The first item of a format; it is written as a prefix of the format. */
  function First(s: string): (i: Item)
    requires s != ""
    ensures 0 < |UnparseItem(i)| <= |s|
  {
    if s[0] != '%' then Literal(s[0])
    else
      var n := ModifierRun(s[1..]);
      if 1 + n == |s| then Unfinished(s[1..]) else Escape(s[1..1 + n], s[1 + n])
  }

  function Parse(s: string): seq<Item> {
    if s == "" then [] else var i := First(s); [i] + Parse(s[|UnparseItem(i)|..])
  }

  function Unparse(items: seq<Item>): string {
    if items == [] then "" else UnparseItem(items[0]) + Unparse(items[1..])
  }

  /** An item list some format string parses to. */
  predicate WellFormed(items: seq<Item>) {
    forall i :: 0 <= i < |items| ==> WellFormedItem(items[i], i == |items| - 1)
  }

  predicate WellFormedItem(i: Item, last: bool) {
    match i
    case Literal(c) => c != '%'
    case Escape(mods, conv) => AllModifiers(mods) && !IsModifier(conv)
    case Unfinished(mods) => AllModifiers(mods) && last
  }

  /** The format does not end inside an escape. */
  predicate Complete(s: string) {
    var items := Parse(s);
    forall i :: 0 <= i < |items| ==> !items[i].Unfinished?
  }

  // ------------------------------------------------------------- modifiers

  /** The local variables of one escape. */
  datatype Field = Field(padc: char, width: int32, precision: int32, lflag: int32, alt: bool)

  const PLAIN := Field(' ', -1, -1, 0, false)

  /** The length of the longest prefix of decimal digits. */
  function DecimalRun(s: string): (n: nat)
    ensures n <= |s|
    ensures forall i :: 0 <= i < n ==> '0' <= s[i] <= '9'
    ensures n < |s| ==> !('0' <= s[n] <= '9')
  {
    if s == "" || !('0' <= s[0] <= '9') then 0 else 1 + DecimalRun(s[1..])
  }

  /** The largest number whose digits can be added up: `precision * 10 + ch` is an `int`, too,
      before the '0' is taken away. */
  const MAX_NUMBER := INT_MAX - '0' as int

  /** The first number of an escape is its width and a later one its precision. */
  function SetNumber(f: Field, v: int32): Field {
    if f.width < 0 then f.(width := v, precision := -1) else f.(precision := v)
  }

  /** What the first modifier does to the field and the arguments, and how many
      characters it takes; `*` takes its number from the arguments. */
  function Modify(mods: string, f: Field, args: seq<Arg>): (r: Option<(Field, seq<Arg>, nat)>)
    requires mods != ""
    ensures r.Some? ==> 1 <= r.value.2 <= |mods|
  {
    match mods[0]
    case '-' => Some((f.(padc := '-'), args, 1))
    case '0' => Some((f.(padc := '0'), args, 1))
    case '#' => Some((f.(alt := true), args, 1))
    case '.' => Some((if f.width < 0 then f.(width := 0) else f, args, 1))
    case 'l' => if f.lflag == INT_MAX then None else Some((f.(lflag := f.lflag + 1), args, 1))
    case '*' =>
      if args != [] && args[0].Word32? then Some((SetNumber(f, ToInt32(args[0].w)), args[1..], 1))
      else None
    case c =>
      var n := DecimalRun(mods);
      var v := Horner(mods[..n], 10);
      if '1' <= c <= '9' && INT_MIN <= v <= MAX_NUMBER then Some((SetNumber(f, v), args, n)) else None
  }

  /** Evaluates modifiers from left to right. */
  function Evaluate(mods: string, f: Field, args: seq<Arg>): Option<(Field, seq<Arg>)>
    decreases |mods|
  {
    if mods == "" then Some((f, args))
    else
      match Modify(mods, f, args)
      case None => None
      case Some((g, rest, k)) => Evaluate(mods[k..], g, rest)
  }

  // ------------------------------------------------------------- rendering

  datatype Rendered = Undefined | Rendered(text: string, rest: seq<Arg>)

  function Prepend(s: string, r: Rendered): Rendered {
    if r.Undefined? then Undefined else Rendered(s + r.text, r.rest)
  }

  predicate Recognised(conv: char) {
    conv in {'c', 'e', 's', 'd', 'u', 'o', 'p', 'x', '%'}
  }

  /** `getint`: an `int`, or a `long` or `long long` when there is an `l`. */
  function GetInt(lflag: int, args: seq<Arg>): Option<int64> {
    if args == [] then None
    else if lflag == 0 && args[0].Word32? then Some(ToInt32(args[0].w))
    else if lflag != 0 && args[0].Word64? then Some(ToInt64(args[0].d))
    else None
  }

  function GetUint(lflag: int, args: seq<Arg>): Option<uint64> {
    if args == [] then None
    else if lflag == 0 && args[0].Word32? then Some(args[0].w)
    else if lflag != 0 && args[0].Word64? then Some(args[0].d)
    else None
  }

  /** A numeral, padded on the left up to the width. */
  function NumberField(prefix: string, num: uint64, base: int, f: Field, rest: seq<Arg>): Rendered
    requires 2 <= base <= 16
  {
    var s := Numeral(num, base);
    if f.width - |s| < INT_MIN then Undefined
    else Rendered(prefix + Repeat(f.padc, f.width - |s|) + s, rest)
  }

  function Visible(c: char): char { if c < ' ' || c > '~' then '?' else c }

  function AllVisible(s: string): (r: string)
    ensures |r| == |s|
    ensures forall i :: 0 <= i < |s| ==> r[i] == Visible(s[i])
  {
    if s == "" then "" else AllVisible(s[..|s| - 1]) + [Visible(s[|s| - 1])]
  }

  /** How many characters of `s` the precision lets through. */
  function Limit(s: string, precision: int): (n: nat)
    ensures n <= |s|
  {
    if precision < 0 then |s| else Min(|s|, precision)
  }

  function Shown(s: string, f: Field): string {
    var t := s[..Limit(s, f.precision)];
    if f.alt then AllVisible(t) else t
  }

  predicate PadsLeft(f: Field) { f.width > 0 && f.padc != '-' }

  /** `width` is decremented once for each character, and must stay an `int`. */
  predicate WidthStaysInt(f: Field, n: nat) {
    INT_MIN <= (if PadsLeft(f) then Min(f.width - n, 0) - n else f.width - n)
  }

  /** A string, padded on one side up to the width. */
  function StringText(s: string, f: Field): string {
    var t := Shown(s, f);
    var pads := f.width - |t|;
    if PadsLeft(f) then Repeat(f.padc, pads) + t else t + Repeat(' ', pads)
  }

  function StringField(s: string, f: Field, rest: seq<Arg>): Rendered {
    if WidthStaysInt(f, |Shown(s, f)|) then Rendered(StringText(s, f), rest) else Undefined
  }

  function ArgString(p: Option<CString>): string {
    if p.None? then "(null)" else Chars(p.value)
  }

  const MAXERROR := 6

  function ErrorString(err: int): string
    requires 1 <= err <= MAXERROR
  {
    match err
    case 1 => "unspecified error"
    case 2 => "bad process"
    case 3 => "invalid parameter"
    case 4 => "out of memory"
    case 5 => "out of processes"
    case _ => "segmentation fault"
  }

  function ErrorText(err: int): string
    requires 0 <= err
  {
    if err == 0 || err > MAXERROR then "error " + Numeral(err, 10) else ErrorString(err)
  }

  function RenderSigned(f: Field, args: seq<Arg>): Rendered {
    match GetInt(f.lflag, args)
    case None => Undefined
    case Some(v) =>
      NumberField(if v < 0 then "-" else "", Abs(v), 10, f, args[1..])
  }

  function RenderUnsigned(base: int, f: Field, args: seq<Arg>): Rendered
    requires 2 <= base <= 16
  {
    match GetUint(f.lflag, args)
    case None => Undefined
    case Some(v) => NumberField("", v, base, f, args[1..])
  }

  /** The text of one recognised conversion. */
  function Convert(conv: char, f: Field, args: seq<Arg>): Rendered
    requires Recognised(conv)
  {
    if conv == '%' then Rendered("%", args)
    else if args == [] then Undefined
    else
      var rest := args[1..];
      match conv
      case 'c' => if args[0].Word32? then Rendered([ToChar(ToInt32(args[0].w))], rest) else Undefined
      case 'e' =>
        if args[0].Word32? && ToInt32(args[0].w) != INT_MIN then
          var v := ToInt32(args[0].w);
          Rendered(ErrorText(if v < 0 then -v else v), rest)
        else Undefined
      case 's' =>
        if args[0].Text? then
          StringField(ArgString(args[0].p), f, rest)
        else Undefined
      case 'd' => RenderSigned(f, args)
      case 'u' => RenderUnsigned(10, f, args)
      case 'o' => RenderUnsigned(8, f, args)
      case 'x' => RenderUnsigned(16, f, args)
      case _ => if args[0].Word64? then NumberField("0x", args[0].d, 16, f, rest) else Undefined
  }

  /** A literal stands for itself. An escape that ends in no conversion is printed as it
      is written, after its modifiers took their arguments. */
  function RenderItem(i: Item, args: seq<Arg>): Rendered
  {
    if i.Literal? then Rendered([i.c], args)
    else
      match Evaluate(i.mods, PLAIN, args)
      case None => Undefined
      case Some((f, rest)) =>
        if i.Escape? && Recognised(i.conv) then Convert(i.conv, f, rest)
        else Rendered(UnparseItem(i), rest)
  }

  function RenderItems(items: seq<Item>, args: seq<Arg>): Rendered
  {
    if items == [] then Rendered("", args)
    else
      var r := RenderItem(items[0], args);
      if r.Undefined? then Undefined else Prepend(r.text, RenderItems(items[1..], r.rest))
  }

  function Render(s: string, args: seq<Arg>): Rendered {
    RenderItems(Parse(s), args)
  }
}
