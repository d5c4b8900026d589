/** trap.c: dispatching on the cause of a trap, and counting timer interrupts. */
module Trap {
  import opened CTypes
  import opened Numerals
  import opened Format
  import opened FormatLaws
  import opened ModifierLaws
  import opened Sinks
  import opened Stdio
  import opened Clock
  import Hart

  /** `struct trapframe`, with the `struct pushregs` in it as a sequence. */
  datatype Trapframe = Trapframe(gpr: seq<uint32>, status: uint32, epc: uint32, badvaddr: uint32, cause: uint32)

  const TICK_NUM := 100
  const INTERRUPT := 0x8000_0000
  const IRQ_S_TIMER := 5

  predicate IsTimer(tf: Trapframe) { tf.cause == INTERRUPT + IRQ_S_TIMER }

  /** `trap_in_kernel` */
  function InKernel(tf: Trapframe): bool { Hart.Bit(tf.status, Hart.SPP) != 0 }

  // ------------------------------------------------------------ specification

  const TICK_MESSAGE := "100 ticks\n"

  /** The message of each other interrupt that has one. */
  function InterruptText(code: int): string {
    if code == 1 then "Supervisor software interrupt\n"
    else if code == 9 then "Supervisor external interrupt\n"
    else if code % 4 == 0 then "User software interrupt\n"
    else if code % 4 == 2 then "Hypervisor software interrupt\n"
    else "Machine software interrupt\n"
  }

  /** The registers in the order of `struct pushregs`. */
  const NAMES_0 := ["zero", "ra", "sp", "gp", "tp", "t0", "t1", "t2"]
  const NAMES_8 := ["s0", "s1", "a0", "a1", "a2", "a3", "a4", "a5"]
  const NAMES_16 := ["a6", "a7", "s2", "s3", "s4", "s5", "s6", "s7"]
  const NAMES_24 := ["s8", "s9", "s10", "s11", "t3", "t4", "t5", "t6"]
  const REG_NAMES := NAMES_0 + NAMES_8 + NAMES_16 + NAMES_24

  /** What a dump has before a value: every name takes nine columns. */
  function Label(name: string): string { "  " + name + Repeat(' ', 9 - |name|) + "0x" }

  /** A name, and a value as eight hexadecimal digits. */
  function HexLine(name: string, v: uint32): string {
    var n := Numeral(v, 16);
    Label(name) + (Repeat('0', 8 - |n|) + n + "\n")
  }

  /** The first `k` lines of `print_regs`. */
  function RegsText(gpr: seq<uint32>, k: nat): string
    requires k <= |gpr| && k <= |REG_NAMES|
  {
    if k == 0 then "" else RegsText(gpr, k - 1) + HexLine(REG_NAMES[k - 1], gpr[k - 1])
  }

  function FieldsText(tf: Trapframe): string {
    HexLine("status", tf.status) + HexLine("epc", tf.epc) +
    HexLine("badvaddr", tf.badvaddr) + HexLine("cause", tf.cause)
  }

  /** The text of `print_trapframe` for a frame at an address. */
  function DumpText(tf: Trapframe, at: uint64): string
    requires |tf.gpr| == 32
  {
    "trapframe at 0x" + (Numeral(at, 16) + "\n") + RegsText(tf.gpr, 32) + FieldsText(tf)
  }

  /** The kernel's clock: its tick counter, how often the timer was armed, and what the
      console got. */
  datatype State = State(ticks: uint32, arms: nat, out: string)

  /** A trap: its frame, and where the frame is. */
  datatype Taken = Taken(tf: Trapframe, at: uint64)

  predicate Whole(t: Taken) { |t.tf.gpr| == 32 }

  /** What a trap prints, when it leaves the tick counter at `ticks`. */
  function TrapText(t: Taken, ticks: uint32): string
    requires Whole(t)
  {
    if IsTimer(t.tf) then (if ticks % TICK_NUM == 0 then TICK_MESSAGE else "")
    else if INTERRUPT <= t.tf.cause <= INTERRUPT + 11 then InterruptText(t.tf.cause - INTERRUPT)
    else if t.tf.cause <= 11 then ""
    else DumpText(t.tf, t.at)
  }

  function Handle(t: Taken, s: State): State
    requires Whole(t)
  {
    var ticks := if IsTimer(t.tf) then ToUint32(s.ticks + 1) else s.ticks;
    State(ticks, if IsTimer(t.tf) then s.arms + 1 else s.arms, s.out + TrapText(t, ticks))
  }

  predicate AllWhole(ts: seq<Taken>) { forall i :: 0 <= i < |ts| ==> Whole(ts[i]) }

  function HandleAll(ts: seq<Taken>, s: State): State
    requires AllWhole(ts)
  {
    if ts == [] then s else Handle(ts[|ts| - 1], HandleAll(ts[..|ts| - 1], s))
  }

  /** `trap_in_kernel` looks at bit 8 of the status. */
  lemma InKernelIs(tf: Trapframe)
    ensures InKernel(tf) <==> tf.status / 256 % 2 == 1
  {
  }

  /** What each cause prints: exceptions up to 11 nothing, interrupts up to 11 their message,
      and everything else a dump. */
  lemma Messages(t: Taken, ticks: uint32)
    requires Whole(t)
    ensures var c, text := t.tf.cause, TrapText(t, ticks);
      && (c <= 11 ==> text == "")
      && (11 < c < 0x8000_0000 || c > 0x8000_000b ==> text == DumpText(t.tf, t.at))
      && (c == 0x8000_0005 ==> text == if ticks % 100 == 0 then "100 ticks\n" else "")
      && (c == 0x8000_0000 || c == 0x8000_0004 || c == 0x8000_0008 ==> text == "User software interrupt\n")
      && (c == 0x8000_0001 ==> text == "Supervisor software interrupt\n")
      && (c == 0x8000_0009 ==> text == "Supervisor external interrupt\n")
      && (c == 0x8000_0002 || c == 0x8000_0006 || c == 0x8000_000a ==> text == "Hypervisor software interrupt\n")
      && (c == 0x8000_0003 || c == 0x8000_0007 || c == 0x8000_000b ==> text == "Machine software interrupt\n")
  {
    hide DumpText;
  }

  /** Only a timer interrupt counts and arms the timer. */
  lemma OnlyTimerTicks(t: Taken, s: State)
    requires Whole(t)
    ensures var r := Handle(t, s);
      && r.out == s.out + TrapText(t, r.ticks)
      && (t.tf.cause == 0x8000_0005 ==> r.ticks == (s.ticks + 1) % 0x1_0000_0000 && r.arms == s.arms + 1)
      && (t.tf.cause != 0x8000_0005 ==> r.ticks == s.ticks && r.arms == s.arms)
  {
    hide TrapText;
  }

  // ------------------------------------------------------------------ dumps

  /** The names of x0 to x31. */
  lemma NamesAre()
    ensures REG_NAMES == [
      "zero", "ra", "sp", "gp", "tp", "t0", "t1", "t2", "s0", "s1", "a0", "a1", "a2", "a3", "a4", "a5",
      "a6", "a7", "s2", "s3", "s4", "s5", "s6", "s7", "s8", "s9", "s10", "s11", "t3", "t4", "t5", "t6"]
  {
  }

  lemma {:induction false} HexLength(n: nat, k: nat)
    requires k >= 1 && n < Power16(k)
    ensures |Numeral(n, 16)| <= k
    decreases k
  {
    if n >= 16 {
      HexLength(n / 16, k - 1);
    }
  }

  function Power16(k: nat): nat { if k == 0 then 1 else 16 * Power16(k - 1) }

  /** A line of a dump has a name in columns 2 to 10, and exactly eight hexadecimal digits. */
  lemma HexLineIs(name: string, v: uint32)
    requires |name| < 9
    ensures var line := HexLine(name, v);
      && |line| == 22 && line[21] == '\n'
      && line[..2] == "  " && line[2..2 + |name|] == name && line[11..13] == "0x"
      && (forall i :: 2 + |name| <= i < 11 ==> line[i] == ' ')
      && AllDigits(line[13..21], 16) && Horner(line[13..21], 16) == v
  {
    hide Numeral, AllDigits, Horner;
    assert Power16(8) == 0x1_0000_0000 by { assert Power16(4) == 0x1_0000; }
    HexLength(v, 8);
    var n := Numeral(v, 16);
    var digits := Repeat('0', 8 - |n|) + n;
    NumeralValue(v, 16);
    LeadingZeros(8 - |n|, n, 16);
    EightDigitsAre(v);
    assert HexLine(name, v)[13..21] == digits;
  }

  lemma EightDigitsAre(v: uint32)
    ensures AllDigits(Repeat('0', 8 - |Numeral(v, 16)|) + Numeral(v, 16), 16)
  {
    hide Numeral;
    NumeralCanonical(v, 16);
  }

  /** Line `i` of the registers is that of register `i`. */
  lemma {:induction false} RegisterLine(gpr: seq<uint32>, k: nat, i: nat)
    requires i < k <= 32 && |gpr| == 32
    ensures |REG_NAMES| == 32 && |RegsText(gpr, k)| == 22 * k
    ensures RegsText(gpr, k)[22 * i..22 * i + 22] == HexLine(REG_NAMES[i], gpr[i])
  {
    hide HexLine, REG_NAMES, RegsText;
    NamesArePlain();
    RegsStep(gpr, k);
    var front, line := RegsText(gpr, k - 1), HexLine(REG_NAMES[k - 1], gpr[k - 1]);
    if i < k - 1 {
      RegisterLine(gpr, k - 1, i);
      SliceOfFirst(front, line, 22 * i, 22 * i + 22);
    } else {
      SliceOfSecond(front, line);
    }
  }

  lemma {:induction false} RegsStep(gpr: seq<uint32>, k: nat)
    requires 1 <= k <= 32 == |gpr| == |REG_NAMES|
    ensures RegsText(gpr, k) == RegsText(gpr, k - 1) + HexLine(REG_NAMES[k - 1], gpr[k - 1])
    ensures |RegsText(gpr, k - 1)| == 22 * (k - 1) && |HexLine(REG_NAMES[k - 1], gpr[k - 1])| == 22
  {
    hide HexLine, REG_NAMES, PlainName;
    NamesArePlain();
    ShortName(REG_NAMES[k - 1]);
    HexLineIs(REG_NAMES[k - 1], gpr[k - 1]);
    if k > 1 {
      RegsStep(gpr, k - 1);
    }
  }

  lemma SliceOfFirst(a: string, b: string, i: nat, j: nat)
    requires i <= j <= |a|
    ensures (a + b)[i..j] == a[i..j]
  {
  }

  lemma SliceOfSecond(a: string, b: string)
    ensures (a + b)[|a|..|a| + |b|] == b
  {
  }

  lemma ShortName(name: string)
    requires PlainName(name)
    ensures |name| < 9
  {
  }

  /** After the registers come the four other words. */
  lemma DumpIs(tf: Trapframe, at: uint64)
    requires |tf.gpr| == 32
    ensures DumpText(tf, at) ==
            "trapframe at 0x" + (Numeral(at, 16) + "\n") + RegsText(tf.gpr, 32) +
            (HexLine("status", tf.status) + HexLine("epc", tf.epc) +
             HexLine("badvaddr", tf.badvaddr) + HexLine("cause", tf.cause))
  {
    hide HexLine, RegsText, Numeral;
  }

  // ---------------------------------------------------------- tick accounting

  function Timers(ts: seq<Taken>): nat {
    if ts == [] then 0
    else Timers(ts[..|ts| - 1]) + if IsTimer(ts[|ts| - 1].tf) then 1 else 0
  }

  /** The length of the first line of a text, with its newline. */
  function LineLength(s: string): (n: nat)
    requires '\n' in s
    ensures 1 <= n <= |s| && s[n - 1] == '\n' && '\n' !in s[..n - 1]
  {
    if s[0] == '\n' then 1 else 1 + LineLength(s[1..])
  }

  /** How many lines of a text are "100 ticks". */
  function TickLines(s: string): nat {
    if '\n' !in s then 0
    else var n := LineLength(s); (if s[..n] == TICK_MESSAGE then 1 else 0) + TickLines(s[n..])
  }

  /** The text ends with a newline, if it is not empty. */
  predicate WholeLines(s: string) { s == "" || s[|s| - 1] == '\n' }

  /** How many of the counts 1 to `n`, taken modulo 2^32, are multiples of 100. */
  function Hundreds(n: nat): nat {
    (n / TWO_32) * 42949673 + (n % TWO_32) / TICK_NUM
  }

  lemma NextHundred(n: nat)
    ensures Hundreds(n + 1) == Hundreds(n) + if (n + 1) % TWO_32 % TICK_NUM == 0 then 1 else 0
  {
  }

  lemma LineLengthIs(line: string, rest: string)
    requires line != "" && line[|line| - 1] == '\n' && '\n' !in line[..|line| - 1]
    ensures '\n' in line + rest && LineLength(line + rest) == |line|
  {
    var s := line + rest;
    assert s[|line| - 1] == '\n';
    assert forall i :: 0 <= i < |line| - 1 ==> s[i] == line[..|line| - 1][i];
    assert s[..|line| - 1] == line[..|line| - 1];
  }

  /** The lines of a text and of what follows it are counted separately. */
  lemma {:induction false} TickLinesAppend(a: string, b: string)
    requires WholeLines(a)
    ensures TickLines(a + b) == TickLines(a) + TickLines(b)
    decreases |a|
  {
    if a == "" {
      assert a + b == b;
    } else {
      assert a[|a| - 1] == '\n';
      var n := LineLength(a);
      var line, rest := a[..n], a[n..];
      assert a == line + rest && a + b == line + (rest + b);
      assert line[..n - 1] == a[..n - 1];
      LineLengthIs(line, rest + b);
      assert (a + b)[..n] == line && (a + b)[n..] == rest + b;
      TickLinesAppend(rest, b);
    }
  }

  lemma AppendLines(a: string, b: string)
    requires WholeLines(a) && WholeLines(b)
    ensures WholeLines(a + b) && TickLines(a + b) == TickLines(a) + TickLines(b)
  {
    TickLinesAppend(a, b);
    assert b == "" ==> a + b == a;
  }

  /** A text of whole lines none of which is "100 ticks". */
  predicate Other(s: string) { WholeLines(s) && TickLines(s) == 0 }

  lemma OtherAppend(a: string, b: string)
    requires Other(a) && Other(b)
    ensures Other(a + b)
  {
    AppendLines(a, b);
  }

  /** A single line. */
  lemma SingleLine(line: string)
    requires line != "" && line[|line| - 1] == '\n' && '\n' !in line[..|line| - 1]
    ensures WholeLines(line) && TickLines(line) == if line == "100 ticks\n" then 1 else 0
  {
    LineLengthIs(line, "");
    assert line + "" == line && line[..|line|] == line && line[|line|..] == "";
  }

  lemma HexLineIsOther(name: string, v: uint32)
    requires PlainName(name)
    ensures Other(HexLine(name, v))
  {
    hide Numeral, Label;
    LabelIsPlain(name);
    NumeralCanonical(v, 16);
    var n, start := Numeral(v, 16), Label(name);
    var line := HexLine(name, v);
    var digits := Repeat('0', 8 - |n|) + n;
    assert line == start + digits + "\n" && line[..|line| - 1] == start + digits;
    assert forall i :: 0 <= i < |n| ==> IsDigit(n[i], 16) && n[i] != '\n';
    assert line[0] == start[0] && TICK_MESSAGE[0] == '1';
    SingleLine(line);
  }

  /** A label can be printed as it is, and does not start like a tick message. */
  predicate PlainLabel(s: string) {
    s != "" && s[0] == ' ' && |s| < 100 && forall i :: 0 <= i < |s| ==> s[i] != '%' && s[i] != '\0' && s[i] != '\n'
  }

  /** Digits, letters and what is between them. */
  predicate PlainName(s: string) { |s| < 9 && forall i :: 0 <= i < |s| ==> '0' <= s[i] <= 'z' }

  predicate PlainNames(ss: seq<string>) { forall k :: 0 <= k < |ss| ==> PlainName(ss[k]) }

  lemma LabelIsPlain(name: string)
    requires PlainName(name)
    ensures PlainLabel(Label(name))
  {
  }

  lemma Names0()
    ensures PlainNames(NAMES_0)
  {
  }

  lemma Names8()
    ensures PlainNames(NAMES_8)
  {
  }

  lemma Names16()
    ensures PlainNames(NAMES_16)
  {
  }

  lemma Names24()
    ensures PlainNames(NAMES_24)
  {
  }

  lemma NamesArePlain()
    ensures PlainNames(REG_NAMES) && |REG_NAMES| == 32
  {
    hide PlainName;
    Names0();
    Names8();
    Names16();
    Names24();
  }

  lemma {:induction false} RegsAreOther(gpr: seq<uint32>, k: nat)
    requires k <= |gpr| && k <= |REG_NAMES|
    ensures Other(RegsText(gpr, k))
  {
    hide HexLine, Other;
    if k == 0 {
      NothingIsOther();
    } else {
      RegsAreOther(gpr, k - 1);
      NamesArePlain();
      HexLineIsOther(REG_NAMES[k - 1], gpr[k - 1]);
      OtherAppend(RegsText(gpr, k - 1), HexLine(REG_NAMES[k - 1], gpr[k - 1]));
    }
  }

  lemma NothingIsOther()
    ensures Other("")
  {
  }

  lemma HeaderIsOther(at: uint64)
    ensures Other("trapframe at 0x" + (Numeral(at, 16) + "\n"))
  {
    hide Numeral;
    NumeralCanonical(at, 16);
    var name, n := "trapframe at 0x", Numeral(at, 16);
    var line := name + (n + "\n");
    assert line[..|line| - 1] == name + n;
    assert forall i :: 0 <= i < |n| ==> IsDigit(n[i], 16) && n[i] != '\n';
    assert line[0] == 't' && TICK_MESSAGE[0] == '1';
    SingleLine(line);
  }

  lemma DumpIsOther(tf: Trapframe, at: uint64)
    requires |tf.gpr| == 32
    ensures Other(DumpText(tf, at))
  {
    hide HexLine, Other, RegsText, Numeral;
    var a, b := HexLine("status", tf.status), HexLine("epc", tf.epc);
    var c, d := HexLine("badvaddr", tf.badvaddr), HexLine("cause", tf.cause);
    HexLineIsOther("status", tf.status);
    HexLineIsOther("epc", tf.epc);
    HexLineIsOther("badvaddr", tf.badvaddr);
    HexLineIsOther("cause", tf.cause);
    OtherAppend(a, b);
    OtherAppend(a + b, c);
    OtherAppend(a + b + c, d);
    HeaderIsOther(at);
    RegsAreOther(tf.gpr, 32);
    var h := "trapframe at 0x" + (Numeral(at, 16) + "\n");
    OtherAppend(h, RegsText(tf.gpr, 32));
    OtherAppend(h + RegsText(tf.gpr, 32), FieldsText(tf));
  }

  lemma InterruptIsOther(code: int)
    ensures Other(InterruptText(code))
  {
    if code == 1 {
      OtherLine("Supervisor software interrupt\n");
    } else if code == 9 {
      OtherLine("Supervisor external interrupt\n");
    } else if code % 4 == 0 {
      OtherLine("User software interrupt\n");
    } else if code % 4 == 2 {
      OtherLine("Hypervisor software interrupt\n");
    } else {
      OtherLine("Machine software interrupt\n");
    }
  }

  lemma OtherLine(line: string)
    requires line != "" && line[|line| - 1] == '\n' && line[0] != '1'
    requires forall i :: 0 <= i < |line| - 1 ==> line[i] != '\n'
    ensures Other(line)
  {
    assert TICK_MESSAGE[0] == '1';
    SingleLine(line);
  }

  /** The tick lines of one trap. */
  lemma TrapLines(t: Taken, ticks: uint32)
    requires Whole(t)
    ensures WholeLines(TrapText(t, ticks))
    ensures TickLines(TrapText(t, ticks)) == if IsTimer(t.tf) && ticks % TICK_NUM == 0 then 1 else 0
  {
    hide DumpText, InterruptText, TickLines;
    NothingIsOther();
    SingleLine(TICK_MESSAGE);
    DumpIsOther(t.tf, t.at);
    InterruptIsOther(t.tf.cause - INTERRUPT);
  }

  /** After any run of traps with `n` timer interrupts since `clock_init`, the tick counter
      is `n` modulo 2^32, the timer was armed `n` more times, and among the lines that
      reached the console "100 ticks" is there once for every hundredth value of the counter. */
  lemma TickAccounting(ts: seq<Taken>, s: State)
    requires s.ticks == 0 && AllWhole(ts)
    ensures var r, n := HandleAll(ts, s), Timers(ts);
      && r.ticks == n % 0x1_0000_0000
      && r.arms == s.arms + n
      && s.out <= r.out && WholeLines(r.out[|s.out|..])
      && TickLines(r.out[|s.out|..]) == n / 0x1_0000_0000 * 42949673 + n % 0x1_0000_0000 / 100
  {
    hide Hundreds, TickLines, HandleAll, Timers;
    TickRun(ts, s);
    HundredsIs(Timers(ts));
  }

  lemma {:induction false} TickRun(ts: seq<Taken>, s: State)
    requires s.ticks == 0 && AllWhole(ts)
    ensures var r, n := HandleAll(ts, s), Timers(ts);
      && r.ticks == n % TWO_32
      && r.arms == s.arms + n
      && s.out <= r.out && WholeLines(r.out[|s.out|..])
      && TickLines(r.out[|s.out|..]) == Hundreds(n)
  {
    hide Hundreds, TickLines, TrapText;
    if ts == [] {
      NoHundreds();
      assert s.out[|s.out|..] == "";
    } else {
      var front, t := ts[..|ts| - 1], ts[|ts| - 1];
      TickRun(front, s);
      OneTrap(t, HandleAll(front, s), Timers(front), |s.out|);
    }
  }

  lemma OneTrap(t: Taken, s: State, n: nat, from: nat)
    requires Whole(t) && s.ticks == n % TWO_32 && from <= |s.out|
    requires WholeLines(s.out[from..]) && TickLines(s.out[from..]) == Hundreds(n)
    ensures var r := Handle(t, s); var m := if IsTimer(t.tf) then n + 1 else n;
      && r.ticks == m % TWO_32
      && r.arms == s.arms + (m - n)
      && s.out <= r.out && WholeLines(r.out[from..])
      && TickLines(r.out[from..]) == Hundreds(m)
  {
    hide Hundreds, TickLines, TrapText, WholeLines, IsTimer;
    var r := Handle(t, s);
    var text := TrapText(t, r.ticks);
    TrapLines(t, r.ticks);
    NextTick(n);
    assert r.out[from..] == s.out[from..] + text;
    AppendLines(s.out[from..], text);
  }

  lemma NextTick(n: nat)
    ensures ToUint32(n % TWO_32 + 1) == (n + 1) % TWO_32
    ensures Hundreds(n + 1) == Hundreds(n) + if ToUint32(n % TWO_32 + 1) % TICK_NUM == 0 then 1 else 0
  {
    hide Hundreds;
    NextHundred(n);
    var q, r := n / TWO_32, n % TWO_32;
    if r + 1 < TWO_32 {
      DivMod(q, r + 1, TWO_32);
      DivMod(0, r + 1, TWO_32);
    } else {
      DivMod(q + 1, 0, TWO_32);
      DivMod(1, 0, TWO_32);
    }
  }

  lemma HundredsIs(n: nat)
    ensures Hundreds(n) == n / 0x1_0000_0000 * 42949673 + n % 0x1_0000_0000 / 100
  {
  }

  /** The timer interrupts of a run. */
  lemma TimersAre(ts: seq<Taken>, t: Taken)
    ensures Timers([]) == 0 && Timers(ts + [t]) == Timers(ts) + if t.tf.cause == 0x8000_0005 then 1 else 0
  {
  }

  lemma NoHundreds()
    ensures Hundreds(0) == 0 && TickLines("") == 0
  {
  }

  /** The messages are one for every 100 timer interrupts exactly as long as the wrap-arounds
      of the counter have not got ahead: 2^32 is no multiple of 100. */
  lemma TickDrift(n: nat)
    ensures n / 0x1_0000_0000 * 42949673 + n % 0x1_0000_0000 / 100 == n / 100 <==>
            4 * (n / 0x1_0000_0000) <= n % 0x1_0000_0000 % 100
  {
  }

  // ------------------------------------------------------------ the handlers

  /** A format with one `%08x` */
  lemma OneHex(name: string, v: uint32)
    requires '%' !in Label(name)
    ensures Render(Label(name) + "%08x\n", [Word32(v)]) == Rendered(HexLine(name, v), [])
  {
    hide Render, Numeral, Evaluate, Convert, Label;
    var pre, args, n := Label(name), [Word32(v)], Numeral(v, 16);
    var i, tail := Escape("08", 'x'), "\n";
    var f := Field('0', 8, -1, 0, false);
    assert "%08x\n" == UnparseItem(i) + tail;
    RenderCons(i, tail, args);
    EightDigits(args);
    LiteralOnly(tail, []);
    ConvertHex(v, args);
    LiteralRun(pre, "%08x\n", args);
  }

  lemma EightDigits(args: seq<Arg>)
    ensures Evaluate("08", PLAIN, args) == Some((Field('0', 8, -1, 0, false), args))
  {
    hide Evaluate, Numeral;
    assert "0" + (Numeral(8, 10) + "") == "08" by { assert Numeral(8, 10) == "8" by { EightInDecimal(); } }
    assert PrecisionText(None) + "" == "";
    StandardModifiers("0", Some(8), None, "", args);
  }

  lemma EightInDecimal()
    ensures Numeral(8, 10) == "8"
  {
  }

  lemma ConvertHex(v: uint32, args: seq<Arg>)
    requires args == [Word32(v)]
    ensures var n := Numeral(v, 16);
      Convert('x', Field('0', 8, -1, 0, false), args) == Rendered(Repeat('0', 8 - |n|) + n, [])
  {
    hide Numeral;
    NumeralAtMost64(v, 16);
    var n := Numeral(v, 16);
    assert "" + Repeat('0', 8 - |n|) + n == Repeat('0', 8 - |n|) + n;
  }

  class Kernel {
    const con: Console
    const timer: Timer
    var ticks: uint32

    /** The state that `Handle` describes. */
    function Abs(): State
      reads this, timer, con
    {
      State(ticks, |timer.armed|, con.out)
    }

    constructor (con: Console, timer: Timer)
      ensures this.con == con && this.timer == timer
    {
      this.con, this.timer := con, timer;
    }

    /** A `cprintf` of text without conversions. */
    method Print(text: CString)
      requires '%' !in Chars(text) && |text| <= INT_MAX
      modifies con
      ensures con.out == old(con.out) + Chars(text)
    {
      hide Render;
      LiteralOnly(Chars(text), []);
      var _ := Vcprintf(con, text, []);
    }

    /** `clock_init`, where `frequency` is what the firmware reports */
    method ClockInit(frequency: uint64) returns (ghost at: nat)
      requires IsCounter(timer.time)
      modifies this, timer, con
      ensures timer.timebase == frequency / 500
      ensures old(timer.samples) <= at < timer.samples
      ensures timer.armed == old(timer.armed) + [ToUint64(timer.time(at) + timer.timebase)]
      ensures ticks == 0 && con.out == old(con.out) + "++ setup timer interrupts\n"
    {
      timer.timebase := frequency / 500;
      at := timer.SetNextEvent();
      ticks := 0;
      SetupText();
      Print("++ setup timer interrupts\n\0");
    }

    lemma SetupText()
      ensures Chars("++ setup timer interrupts\n\0") == "++ setup timer interrupts\n"
      ensures '%' !in "++ setup timer interrupts\n"
    {
    }

    /** `print_ticks` without DEBUG_GRADE */
    method PrintTicks()
      modifies con
      ensures con.out == old(con.out) + "100 ticks\n"
    {
      hide Render, Numeral;
      TickText();
      var _ := Vcprintf(con, "%d ticks\n\0", [Word32(TICK_NUM)]);
    }

    lemma TickText()
      ensures Render(Chars("%d ticks\n\0"), [Word32(TICK_NUM)]) == Rendered(TICK_MESSAGE, [])
    {
      hide Render, Numeral;
      OneNumber("", " ticks\n", TICK_NUM);
      HundredInDecimal();
      assert Chars("%d ticks\n\0") == "" + ("%d" + " ticks\n");
      assert "" + ("100" + " ticks\n") == TICK_MESSAGE;
    }

    lemma HundredInDecimal()
      ensures Numeral(TICK_NUM, 10) == "100"
    {
      assert Numeral(1, 10) == "1" && Numeral(10, 10) == "10";
    }

    /** `case IRQ_S_TIMER` */
    method HandleTimer() returns (ghost at: nat)
      requires IsCounter(timer.time)
      modifies this, timer, con
      ensures ticks == (old(ticks) + 1) % 0x1_0000_0000
      ensures con.out == old(con.out) + if ticks % 100 == 0 then "100 ticks\n" else ""
      ensures old(timer.samples) <= at < timer.samples
      ensures timer.armed == old(timer.armed) + [ToUint64(timer.time(at) + timer.timebase)]
      ensures timer.timebase == old(timer.timebase)
    {
      at := timer.SetNextEvent();
      ticks := ToUint32(ticks + 1);
      if ticks % TICK_NUM == 0 {
        PrintTicks();
      }
    }

    /** `interrupt_handler` */
    method InterruptHandler(t: Taken)
      requires IsCounter(timer.time) && Whole(t) && t.tf.cause >= INTERRUPT
      modifies this, timer, con
      ensures Abs() == Handle(t, old(Abs())) && timer.timebase == old(timer.timebase)
      ensures old(timer.armed) <= timer.armed
    {
      hide InterruptText, DumpText, IsCounter;
      // (tf->cause << 1) >> 1 on 32-bit unsigned values
      var cause := ToUint32(t.tf.cause * 2) / 2;
      if cause == IRQ_S_TIMER {
        ghost var _ := HandleTimer();
      } else if cause <= 11 {
        var text := SwitchText(cause);
        PlainText(cause);
        assert Chars(text + "\0") == text;
        Print(text + "\0");
      } else {
        PrintTrapframe(t);
      }
    }

    /** The other cases of the switch. */
    method SwitchText(cause: nat) returns (text: string)
      requires cause <= 11 && cause != IRQ_S_TIMER
      ensures text == InterruptText(cause)
    {
      match cause {
        case 0 => text := "User software interrupt\n";
        case 1 => text := "Supervisor software interrupt\n";
        case 2 => text := "Hypervisor software interrupt\n";
        case 3 => text := "Machine software interrupt\n";
        case 4 => text := "User software interrupt\n";
        case 6 => text := "Hypervisor software interrupt\n";
        case 7 => text := "Machine software interrupt\n";
        case 8 => text := "User software interrupt\n";
        case 9 => text := "Supervisor external interrupt\n";
        case 10 => text := "Hypervisor software interrupt\n";
        case _ => text := "Machine software interrupt\n";
      }
    }

    lemma PlainText(code: int)
      ensures IsCString(InterruptText(code) + "\0")
      ensures '%' !in InterruptText(code) && |InterruptText(code)| < 100
    {
      hide IsCString;
      if code == 1 {
        PlainLiteral("Supervisor software interrupt\n");
      } else if code == 9 {
        PlainLiteral("Supervisor external interrupt\n");
      } else if code % 4 == 0 {
        PlainLiteral("User software interrupt\n");
      } else if code % 4 == 2 {
        PlainLiteral("Hypervisor software interrupt\n");
      } else {
        PlainLiteral("Machine software interrupt\n");
      }
    }

    lemma PlainLiteral(s: string)
      requires forall i :: 0 <= i < |s| ==> s[i] != '\0' && s[i] != '%'
      ensures IsCString(s + "\0") && '%' !in s
    {
    }

    /** `print_trapframe` */
    method PrintTrapframe(t: Taken)
      requires Whole(t)
      modifies con
      ensures con.out == old(con.out) + DumpText(t.tf, t.at)
    {
      hide Render, Numeral, FieldsText, RegsText;
      HeaderText(t.at);
      var _ := Vcprintf(con, "trapframe at %p\n\0", [Word64(t.at)]);
      PrintRegs(t.tf.gpr);
      PrintFields(t.tf);
    }

    method PrintFields(tf: Trapframe)
      modifies con
      ensures con.out == old(con.out) + FieldsText(tf)
    {
      hide HexLine;
      PrintHex("status", tf.status);
      PrintHex("epc", tf.epc);
      PrintHex("badvaddr", tf.badvaddr);
      PrintHex("cause", tf.cause);
    }

    lemma HeaderText(at: uint64)
      ensures Render(Chars("trapframe at %p\n\0"), [Word64(at)]) ==
              Rendered("trapframe at 0x" + (Numeral(at, 16) + "\n"), [])
      ensures |Numeral(at, 16)| <= 64
    {
      hide Render, Numeral, Convert;
      var args, tail := [Word64(at)], "\n";
      LiteralOnly(tail, []);
      ConvertPointer(at, args);
      PlainEscape('p', tail, args);
      LiteralRun("trapframe at ", "%" + ['p'] + tail, args);
      assert Chars("trapframe at %p\n\0") == "trapframe at " + ("%" + ['p'] + tail);
      assert "trapframe at " + ("0x" + Numeral(at, 16) + tail) == "trapframe at 0x" + (Numeral(at, 16) + tail);
      NumeralAtMost64(at, 16);
    }

    lemma ConvertPointer(at: uint64, args: seq<Arg>)
      requires args == [Word64(at)]
      ensures Convert('p', PLAIN, args) == Rendered("0x" + Numeral(at, 16), [])
    {
      hide Numeral;
      NumeralAtMost64(at, 16);
      var n := Numeral(at, 16);
      assert "0x" + Repeat(' ', -1 - |n|) + n == "0x" + n;
    }

    /** `print_regs`: its 32 calls, with the names in a table */
    method PrintRegs(gpr: seq<uint32>)
      requires |gpr| == 32
      modifies con
      ensures con.out == old(con.out) + RegsText(gpr, 32)
    {
      hide HexLine, PlainName;
      NamesArePlain();
      for k := 0 to 32
        invariant con.out == old(con.out) + RegsText(gpr, k)
      {
        PrintHex(REG_NAMES[k], gpr[k]);
      }
    }

    /** One line of a dump. */
    method PrintHex(name: string, v: uint32)
      requires PlainName(name)
      modifies con
      ensures con.out == old(con.out) + HexLine(name, v)
    {
      hide Render, HexLine, Label;
      LabelIsPlain(name);
      var fmt := Label(name) + "%08x\n" + "\0";
      assert Chars(fmt) == Label(name) + "%08x\n";
      OneHex(name, v);
      HexLineLength(name, v);
      var _ := Vcprintf(con, fmt, [Word32(v)]);
    }

    lemma HexLineLength(name: string, v: uint32)
      requires PlainName(name)
      ensures |HexLine(name, v)| < 100
    {
      hide Numeral;
      NumeralAtMost64(v, 16);
    }

    /** `exception_handler` prints only frames of unknown exceptions. */
    method ExceptionHandler(t: Taken)
      requires Whole(t) && t.tf.cause < INTERRUPT
      modifies con
      ensures Abs() == Handle(t, old(Abs()))
      ensures con.out == old(con.out) + if t.tf.cause <= 11 then "" else DumpText(t.tf, t.at)
    {
      hide DumpText;
      if !(t.tf.cause in {0, 1, 2, 3, 4, 5, 6, 7, 8, 9, 10, 11}) {
        PrintTrapframe(t);
      }
    }

    /** `trap` and `trap_dispatch`: the sign of the cause as an `intptr_t` decides. */
    method Dispatch(t: Taken)
      requires IsCounter(timer.time) && Whole(t)
      modifies this, timer, con
      ensures Abs() == Handle(t, old(Abs())) && timer.timebase == old(timer.timebase)
      ensures var c := t.tf.cause;
        && (c == 0x8000_0005 ==>
             && ticks == (old(ticks) + 1) % 0x1_0000_0000
             && |timer.armed| == |old(timer.armed)| + 1
             && con.out == old(con.out) + if ticks % 100 == 0 then "100 ticks\n" else "")
        && (c != 0x8000_0005 ==> ticks == old(ticks) && timer.armed == old(timer.armed))
        && (c <= 11 ==> con.out == old(con.out))
        && (11 < c < 0x8000_0000 || c > 0x8000_000b ==> con.out == old(con.out) + DumpText(t.tf, t.at))
        && (c == 0x8000_0000 || c == 0x8000_0004 || c == 0x8000_0008 ==>
             con.out == old(con.out) + "User software interrupt\n")
        && (c == 0x8000_0001 ==> con.out == old(con.out) + "Supervisor software interrupt\n")
        && (c == 0x8000_0009 ==> con.out == old(con.out) + "Supervisor external interrupt\n")
        && (c == 0x8000_0002 || c == 0x8000_0006 || c == 0x8000_000a ==>
             con.out == old(con.out) + "Hypervisor software interrupt\n")
        && (c == 0x8000_0003 || c == 0x8000_0007 || c == 0x8000_000b ==>
             con.out == old(con.out) + "Machine software interrupt\n")
    {
      hide Handle, IsCounter, TrapText, DumpText, Whole;
      OnlyTimerTicks(t, Abs());
      Messages(t, Handle(t, Abs()).ticks);
      if ToInt32(t.tf.cause) < 0 {
        InterruptHandler(t);
      } else {
        ExceptionHandler(t);
      }
    }
  }
}
