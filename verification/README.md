# Verified model of the lab1 kernel runtime

A Dafny model of the parts of the lab1 RISC-V kernel that hold its logic, with proofs that
hold for every input, every run or every nesting of traps:

- **Formatted output** (`libs/printfmt.c`, `kern/libs/stdio.c`). `Format.dfy` says what a
  format string means: it is parsed into literals and escapes, the modifiers of an escape are
  evaluated to a field description, and the field is rendered. `Printf.dfy` is the formatter
  as the source runs it, character by character into a sink, and is proved to put exactly
  that rendering. `FormatLaws.dfy` and `ModifierLaws.dfy` prove what the meaning promises:
  parsing loses nothing, formats compose, escapes nobody knows are printed as written,
  modifiers in the usual order mean what they should. `ConversionLaws.dfy` says what each
  conversion prints, with format and text written out. `Sink.dfy` has the two callbacks the
  kernel passes (`sprintputch` over a `struct sprintbuf`, `cputch` over the console).
- **Numbers and strings** (`libs/string.c`). `Numerals.dfy` is positional notation;
  `Strtol.dfy` and `StrtolLaws.dfy` have `strtol`, the one way it splits a string, and the
  number that the digits of a text denote;
  `RoundTrip.dfy` proves exactly when `strtol` reads back what a conversion printed.
  `CString.dfy` has `strnlen`, `strchr` and `strcmp`, `Memory.dfy` `memmove` and `memcpy`.
- **Traps** (`kern/trap`). `Hart.dfy` is a small machine and the save and restore sequences
  as lists of its instructions; `TrapEntry.dfy` proves what they do; `NestedTraps.dfy` proves
  that every trap, with traps nested in it to any depth, resumes the context it interrupted.
  `Trap.dfy` has the C handlers and the accounting of timer ticks.
- **Timer** (`kern/driver/clock.c`). `Clock.dfy` has the split read of the 64-bit counter.
- **Monitor** (`kern/libs/readline.c`, `kern/debug/kmonitor.c`). `Readline.dfy` and
  `Kmonitor.dfy` have the line editor, the tokenizer that cuts the line in place, the command
  lookup, and their composition.

## Conventions

- C integers of the rv64 build are subset types of `int` (`CTypes.dfy`), so an assignment to
  one of them is also the proof that the C expression does not overflow. Conversions that C
  defines are explicit functions. `long`, `long long` and pointers passed to a format are 64
  bits wide; `size_t` is 32 bits wide, as `libs/defs.h` declares it.
- `Undefined` in `Format.dfy` stands for undefined behaviour in C (an argument that is missing
  or of the wrong type, an `int` that overflows). The formatter requires that the rendering is
  defined, and nothing else of format and arguments. A number in a format is at most
  INT_MAX - 48: `precision * 10 + ch` has to be an `int` before the `'0'` is taken away.
- Arithmetic on `long` and `long long` wraps modulo 2^64, as the registers do: `strtol` says
  itself that it does not detect overflow, and `%d` of the smallest `long` negates it.
- A C `char` is a Dafny `char`; an `int` stored in one keeps its low eight bits. A string in
  memory is a sequence that holds a NUL; a `CString` ends with its only NUL. Reads are proved to
  stay within the sequence, so nothing is read before a string's start or past its NUL.
- The machine of `Hart.dfy` has 32-bit words and REGBYTES equal to 4: with the 32-bit
  `uintptr_t` of `libs/defs.h` this is the configuration in which the slots the assembly uses
  are the fields of `struct trapframe`. Memory is accessed in aligned words; stack pointers and
  the addresses of writes are multiples of REGBYTES.
- The code that runs is that at the program counter: `stvec` leads to `__alltraps`, as `idt_init`
  leaves it, `jal` to `trap`, and the return address to `__trapret`.
- While `trap` runs, its C code may compute anything and write any memory but the stack from
  its own frame upwards, may change `sstatus`, and returns with its stack pointer at the frame
  and in ra the return address it was given
  (the comment at `kern/trap/trapentry.S:106`).

## Where the code differs from its comments

- `printnum` is documented for bases from 1; with base 1 the recursion would not end, and the
  model requires base 2 to 16.
- Numbers with the flag `-` are padded on the left, with the character `-`, and a sign is put
  before the padding. `RoundTrip.Faithful` is the exact condition under which such a number
  can be read back; for a caller it is a condition on the flag, the width and the number.
- A precision of 0 cannot be written in digits: in `%.0s` the `0` is a padding flag
  (`ModifierLaws.ZeroPrecisionIsAFlag`). `%.*s` with the argument 0 has precision 0
  (`ModifierLaws.StarPrecision`).
- A string of more than 2^30 characters can overflow the `int` width of a `%s` that pads on the
  left: the width is counted down by the length before the characters, and by one for each.
  `ConversionLaws.StringConversion` has the exact condition.
- `strchr` does not find the terminating NUL.
- A backspace does not take back a key that was typed into a full line; it takes back the
  last character of the line instead (`Readlines.BackspaceCancels`).
- `memcpy` on overlapping places repeats characters; `Memory.CopyOrMove` says exactly when the
  result is that of `memmove`.
- "100 ticks" is not printed for every hundredth timer interrupt once the 32-bit counter has
  wrapped around, because 2^32 is no multiple of 100. `Trap.TickDrift` says exactly when the
  number of messages is the number of interrupts divided by 100.

## Model

| member | source | states |
|---|---|---|
| `Printf.Printnum` | labcodes/lab1/libs/printfmt.c:36-52 | puts exactly max(0, width - digits) pads and then the numeral, for every base from 2 to 16; no `int` overflows |
| `Numerals.NumeralValue` | labcodes/lab1/libs/printfmt.c:36-52 | the digits printed denote the number |
| `Numerals.NumeralCanonical` | labcodes/lab1/libs/printfmt.c:36-52 | they are digits of the base, with a leading zero only for zero |
| `Numerals.NumeralUnique` | labcodes/lab1/libs/printfmt.c:36-52 | no other canonical digit string denotes the number |
| `Numerals.NumeralAtMost64` | labcodes/lab1/libs/printfmt.c:36-52 | the recursion is at most 64 deep |
| `Numerals.DigitTable` | labcodes/lab1/libs/printfmt.c:51 | the digit table holds the characters of the digits |
| `Printf.Vprintfmt` | labcodes/lab1/libs/printfmt.c:116-276 | terminates on every format and puts exactly the rendering of the parsed format |
| `Printf.PutEscape` | labcodes/lab1/libs/printfmt.c:131-274 | one escape leaves exactly the rendering of the rest of the format to be put |
| `Printf.ScanModifiers` | labcodes/lab1/libs/printfmt.c:136-181 | the `reswitch` loop reads all modifiers, takes the `*` arguments, and ends just past the conversion character |
| `Printf.ScanNumber` | labcodes/lab1/libs/printfmt.c:150-157 | a width or precision is the value of the longest run of digits, and no intermediate sum overflows |
| `Printf.Rewind` | labcodes/lab1/libs/printfmt.c:269-273 | the backward scan of an unknown escape stops exactly behind the escape's own `%` |
| `Printf.PutString` | labcodes/lab1/libs/printfmt.c:203-223 | `%s` puts the field that `StringFieldLaw` describes, also for NULL |
| `Printf.PredictedCount` | labcodes/lab1/libs/printfmt.c:207-212 | what `strnlen` counts (precision -1 taken as the largest `size_t`) is what the copy loop prints, and the width does not wrap |
| `FormatLaws.StringFieldLaw` | labcodes/lab1/libs/printfmt.c:203-223 | a `%s` field has max(width, shown) characters, shows the precision-limited prefix (with `?` for invisible characters under `#`), and is padded on one side only |
| `Printf.PutSigned` | labcodes/lab1/libs/printfmt.c:226-233 | `%d` puts the sign, then the padded numeral of the magnitude, also for the smallest `long`, and takes one argument of the size the `l` flags say |
| `Printf.PutUnsigned` | labcodes/lab1/libs/printfmt.c:236-261 | `%u`, `%o`, `%x` put the padded numeral in their base |
| `Printf.PutPointer` | labcodes/lab1/libs/printfmt.c:248-261 | `%p` puts `0x` and the padded hexadecimal numeral |
| `Printf.PutError` | labcodes/lab1/libs/printfmt.c:189-200 | `%e` puts the name of an error, or its code when it has none, through a nested call of the formatter |
| `FormatLaws.ErrorSignIgnored` | labcodes/lab1/libs/printfmt.c:11-14 | an error code and its negation are printed alike |
| `FormatLaws.ParseWellFormed` | labcodes/lab1/libs/printfmt.c:123-181 | the parse of a format, written out again, is the format |
| `FormatLaws.ParseUnparse` | labcodes/lab1/libs/printfmt.c:123-181 | every well-formed list of literals and escapes is the parse of what it is written as |
| `FormatLaws.Compositional` | labcodes/lab1/libs/printfmt.c:117-276 | a format that does not end inside an escape, followed by another, prints what the two print one after the other on the arguments that are left |
| `FormatLaws.CompositionalIff` | labcodes/lab1/libs/printfmt.c:117-276 | exactly the formats that do not end inside an escape compose with every other format |
| `FormatLaws.Verbatim` | labcodes/lab1/libs/printfmt.c:268-273 | a format without a recognised conversion is printed as it is written |
| `FormatLaws.LiteralRun` | labcodes/lab1/libs/printfmt.c:124-129 | text without `%` is copied |
| `ConversionLaws.SignedText` | labcodes/lab1/libs/printfmt.c:226-233 | `%d` with any flag, width, precision and `l`s prints every `int` (with an `l` every `long`): sign, padding, decimal digits; its argument is a two's complement word |
| `ConversionLaws.UnsignedText` | labcodes/lab1/libs/printfmt.c:236-261 | `%u`, `%o`, `%x` print every 32-bit number (with an `l` every 64-bit one) in base 10, 8, 16 |
| `ConversionLaws.PointerText` | labcodes/lab1/libs/printfmt.c:248-261 | `%p` prints `0x` and the padded hexadecimal digits of every address |
| `ConversionLaws.StringConversion` | labcodes/lab1/libs/printfmt.c:203-223 | `%s` of NULL and of every string: which characters are shown, and that padding is blanks on the right under `-` and the flag's character on the left otherwise; undefined exactly if the width overflows |
| `ConversionLaws.CharText` | labcodes/lab1/libs/printfmt.c:184-186 | `%c` prints the low eight bits of its argument |
| `ConversionLaws.ErrorConversion` | labcodes/lab1/libs/printfmt.c:16-24 | `%e` of a code or its negation prints the six names, and `error` with the code for any other |
| `ConversionLaws.PercentText` | labcodes/lab1/libs/printfmt.c:264-266 | `%%` prints one `%` and takes no argument |
| `ConversionLaws.UnknownText` | labcodes/lab1/libs/printfmt.c:269-273 | every character that is neither a modifier nor one of cesduopx% leaves its directive as written |
| `ConversionLaws.UnknownStar` | labcodes/lab1/libs/printfmt.c:159-161 | a `*` takes its argument even if the directive turns out to be unknown |
| `ConversionLaws.StarText` | labcodes/lab1/libs/printfmt.c:159-173 | `%*.*s` takes width and precision from two `int`s, negative ones included |
| `ConversionLaws.StarNumberText` | labcodes/lab1/libs/printfmt.c:159-173 | `%*d` for every width and number; undefined exactly if counting the width down overflows |
| `ConversionLaws.DirectiveThen` | labcodes/lab1/libs/printfmt.c:122-276 | what follows a directive is rendered with the arguments it leaves |
| `ModifierLaws.StandardModifiers` | labcodes/lab1/libs/printfmt.c:131-181 | flags, width, precision and `l`s in the usual order, each of them optional, give that field: the last padding flag counts, numbers have their decimal value, each `l` counts once, and a precision without a width makes the width 0 |
| `ModifierLaws.ZeroPrecisionIsAFlag` | labcodes/lab1/libs/printfmt.c:145-147 | `.0` sets the padding character and no precision |
| `ModifierLaws.StarPrecision` | labcodes/lab1/libs/printfmt.c:159-173 | `.*` sets the precision to its argument, whatever it is |
| `Sinks.Sink.Put` | labcodes/lab1/libs/printfmt.c:290-296 | `sprintputch` counts every character and stores those that fit; `cputch` counts and prints |
| `Printf.Vsnprintf` | labcodes/lab1/libs/printfmt.c:328-339 | returns the full length, stores the first min(length, size - 1) characters and a NUL, and changes no later cell; NULL or size 0 gives -3 and changes nothing, whatever format and arguments are |
| `Stdio.Vcprintf` | labcodes/lab1/kern/libs/stdio.c:25-29 | the whole rendering reaches the console, and its length is returned |
| `Stdio.Getchar` | labcodes/lab1/kern/libs/stdio.c:64-68 | skips all zeros and delivers the code after them, negative ones included |
| `Stdio.NextAfterZeros` | labcodes/lab1/kern/libs/stdio.c:64-68 | the same of the function the line editor's specification uses |
| `CStrings.Strnlen` | labcodes/lab1/libs/string.c:33-40 | the length of the string, at most the limit |
| `CStrings.Strchr` | labcodes/lab1/libs/string.c:142-151 | the first occurrence before the NUL, and nothing exactly if there is none |
| `CStrings.Strcmp` | labcodes/lab1/libs/string.c:103-113 | zero exactly for equal strings, and otherwise the difference of the first two characters that differ |
| `Memory.Memmove` | labcodes/lab1/libs/string.c:292-311 | the destination holds what the source held, overlapping or not, and no other cell changes |
| `Memory.Memcpy` | labcodes/lab1/libs/string.c:327-339 | each cell is what the source held, or what the copy itself has put there when the destination starts behind the source; no other cell changes |
| `Memory.CopyOrMove` | labcodes/lab1/libs/string.c:313-339 | `memcpy` gives what `memmove` gives exactly if the destination does not start inside the source or the source repeats with their distance |
| `Strtol.Strtol` | labcodes/lab1/libs/string.c:203-259 | the signed value of the scanned digits modulo 2^64 and the position after them, for every terminated string and every base |
| `Strtol.ScanLong` | labcodes/lab1/libs/string.c:203-259 | the scan never passes the NUL |
| `StrtolLaws.ScanReads` | labcodes/lab1/libs/string.c:181-201 | what is read is blanks, an optional sign, an optional prefix, and the longest run of digits valid in the base |
| `StrtolLaws.ReadsUnique` | labcodes/lab1/libs/string.c:181-201 | and no other split of the string is |
| `StrtolLaws.TextMeans` | labcodes/lab1/libs/string.c:203-259 | blanks and tabs, a sign, a prefix and digits of either case denote the signed sum of digits times powers of the base, in every base |
| `RoundTrip.SignedRoundTrip` | labcodes/lab1/libs/printfmt.c:226-261 | for `%d` with any modifiers and any `int` or `long`, `strtol` in base 10 on the array `vsnprintf` filled returns the number with the end at the NUL, if and only if the padding is faithful |
| `RoundTrip.UnsignedRoundTrip` | labcodes/lab1/libs/printfmt.c:236-261 | the same for `%u`, `%o` and `%x` of every 64-bit number, read in their base as the `long` with the same bits |
| `RoundTrip.PointerRoundTrip` | labcodes/lab1/libs/printfmt.c:248-261 | every `%p` reads back in base 0 or 16 if and only if it is padded with zeros or not at all |
| `RoundTrip.SignedReadBack` | labcodes/lab1/libs/printfmt.c:226-261 | `%d` of every `int` and `long` with any flag, width and precision is defined and reads back if and only if it has no padding, or zeros, or spaces and no sign, or one `-` before 0 |
| `RoundTrip.UnsignedReadBack` | labcodes/lab1/libs/printfmt.c:236-261 | `%u`, `%o`, `%x` of every 32- and 64-bit number read back if and only if they are not padded with `-`, or with one before 0 or 2^63 |
| `RoundTrip.PointerReadBack` | labcodes/lab1/libs/printfmt.c:248-261 | the same for `%p` and its two bases |
| `RoundTrip.ReadBack` | labcodes/lab1/libs/string.c:204-259 | the condition on sign, padding character and padding length for a padded numeral in bases 2 to 16 |
| `TrapEntry.SaveAllEffect` | labcodes/lab1/kern/trap/trapentry.S:3-55 | the new frame holds every register and the four CSRs, the rest of memory is unchanged, `sscratch` is 0 |
| `TrapEntry.RestoreAllEffect` | labcodes/lab1/kern/trap/trapentry.S:57-98 | every register, `sstatus` and `sepc` come back from the frame, and nothing else changes |
| `NestedTraps.TrapIsTransparent` | labcodes/lab1/kern/trap/trapentry.S:100-112 | every trap with any tree of traps inside it leaves x1 to x31, the program counter, the privilege mode, the interrupt-enable bit and the stack in use as it found them, and `sscratch` 0 |
| `NestedTraps.BodyKeepsFrame` | labcodes/lab1/kern/trap/trap.c:168-185 | while `trap` runs, its frame and the stack above it keep their contents |
| `NestedTraps.TrapframeSeen` | labcodes/lab1/kern/trap/trap.h:6-47 | `trap` starts in supervisor mode with interrupts off, ra at `__trapret` and a0 at a frame of 144 bytes with the layout of `struct trapframe`: all registers, and the status, program counter, value and cause of its own trap; `trap_in_kernel` tells the mode it interrupted |
| `NestedTraps.FramesBelow` | labcodes/lab1/kern/trap/trapentry.S:7 | all frames of a trap and of those inside it lie below the interrupted stack pointer |
| `NestedTraps.InnerFramesBelow` | labcodes/lab1/kern/trap/trapentry.S:7 | inner frames never overlap an outer one |
| `NestedTraps.ChainNeedsFrames` | labcodes/lab1/kern/trap/trapentry.S:7 | with the vector set and an aligned stack pointer, nesting n deep takes exactly 144*(n + 1) bytes of stack |
| `NestedTraps.AlwaysQuiet` | labcodes/lab1/kern/trap/trapentry.S:41-44 | `sscratch` is 0 at every moment while `trap` runs, in all traps of the tree |
| `NestedTraps.StatusRoundTrip` | labcodes/lab1/kern/trap/trapentry.S:44-63 | under the trap and `sret` rules of section 4.1.1 of the RISC-V Privileged Architecture v1.10, `sstatus` comes back with SPIE set, SPP cleared and every other bit as it was |
| `NestedTraps.EnterStatus` | labcodes/lab1/kern/trap/trapentry.S:44 | a trap moves bit 1 of `sstatus` to bit 5 and clears it, notes the mode in bit 8, and keeps the others, under the same rules |
| `NestedTraps.StatusAfterFields` | labcodes/lab1/kern/trap/trapentry.S:60-63 | after the trap bit 5 is set, bit 8 clear, and every other bit as it was |
| `NestedTraps.Machine.Handle` | labcodes/lab1/kern/trap/trapentry.S:100-112 | the machine, running the code at its program counter, ends in the resumed context |
| `NestedTraps.Machine.RunProgram` | labcodes/lab1/kern/trap/trapentry.S:3-98 | the machine executes the instruction sequence |
| `NestedTraps.Machine.IdtInit` | labcodes/lab1/kern/trap/trap.c:25-32 | `sscratch` is 0 and `stvec` the address of `__alltraps`, as every legal trap needs it, and nothing else changes |
| `Trap.Kernel.Dispatch` | labcodes/lab1/kern/trap/trap.c:169-185 | for every cause: causes up to 11 print nothing, 0x80000000 to 0x8000000b their message, 0x80000005 ticks, arms the timer and prints at multiples of 100, and all others dump the frame |
| `Trap.Messages` | labcodes/lab1/kern/trap/trap.c:83-166 | the text of each of these causes |
| `Trap.OnlyTimerTicks` | labcodes/lab1/kern/trap/trap.c:101-111 | only cause 0x80000005 changes ticks and the timer |
| `Trap.InKernelIs` | labcodes/lab1/kern/trap/trap.c:35-37 | bit 8 of the status decides |
| `Trap.Kernel.InterruptHandler` | labcodes/lab1/kern/trap/trap.c:83-134 | the console gets one message for each cause that has one and a dump for an unknown one; the timer ticks |
| `Trap.Kernel.SwitchText` | labcodes/lab1/kern/trap/trap.c:85-129 | the message of each cause |
| `Trap.Kernel.HandleTimer` | labcodes/lab1/kern/trap/trap.c:101-111 | one tick, one deadline `timebase` after a moment during the call, and "100 ticks" at multiples of 100 |
| `Trap.Kernel.PrintTicks` | labcodes/lab1/kern/trap/trap.c:14-20 | the formatter turns `%d ticks` into "100 ticks" |
| `Trap.Kernel.ExceptionHandler` | labcodes/lab1/kern/trap/trap.c:136-166 | causes up to 11 change nothing, for others the console gets the dump of the frame |
| `Trap.Kernel.PrintTrapframe` | labcodes/lab1/kern/trap/trap.c:39-46 | the text of a dump: the address, all registers and the four CSRs |
| `Trap.Kernel.PrintRegs` | labcodes/lab1/kern/trap/trap.c:48-81 | one line for each register, with its name and its value as eight hexadecimal digits |
| `Trap.HexLineIs` | labcodes/lab1/kern/trap/trap.c:42-45 | a line of a dump has the name, blanks up to column 11, `0x`, and exactly eight hexadecimal digits that denote the value |
| `Trap.RegisterLine` | labcodes/lab1/kern/trap/trap.c:48-81 | the i-th 22 characters are the line of register i |
| `Trap.NamesAre` | labcodes/lab1/kern/trap/trap.c:48-81 | the names of the 32 registers, in order |
| `Trap.DumpIs` | labcodes/lab1/kern/trap/trap.c:39-46 | the parts of a dump, in order |
| `Trap.Kernel.ClockInit` | labcodes/lab1/kern/driver/clock.c:32-42 | the timer is armed once and the ticks start at 0 |
| `Trap.TickAccounting` | labcodes/lab1/kern/trap/trap.c:101-111 | after any run of traps with N = q*2^32 + r timer interrupts, ticks is r, the timer was armed N more times, and exactly q*42949673 + r/100 of the lines that the console got are "100 ticks" |
| `Trap.TimersAre` | labcodes/lab1/kern/trap/trap.c:101 | N counts the traps with cause 0x80000005 |
| `Trap.TickLinesAppend` | labcodes/lab1/kern/trap/trap.c:15 | the "100 ticks" lines of whole lines and of what follows them add up |
| `Trap.TickDrift` | labcodes/lab1/kern/trap/trap.c:108-110 | that is N/100 if and only if 4*q is at most r modulo 100 |
| `Clock.Timer.GetCyclesSplit` | labcodes/lab1/kern/driver/clock.c:14-22 | for every schedule of the counter, the loop ends and returns the counter's value at the instant the last low half was read |
| `Clock.RetryBound` | labcodes/lab1/kern/driver/clock.c:15-20 | if at most (n - 1)*2^32 ticks elapse over n iterations, the loop ends within n |
| `Clock.RetryBoundIsTight` | labcodes/lab1/kern/driver/clock.c:15-20 | with one tick more all n iterations can fail, for every n below 2^32 |
| `Clock.RetryLimit` | labcodes/lab1/kern/driver/clock.c:15-20 | and never 2^32 of them or more |
| `Clock.Timer.SetNextEvent` | labcodes/lab1/kern/driver/clock.c:44 | one deadline, the counter at a moment during the call plus `timebase`, modulo 2^64 |
| `Readlines.Editor.Readline` | labcodes/lab1/kern/libs/readline.c:24-45 | the buffer holds the NUL-terminated fold of the keys typed, the console got the prompt, the echo and the 10 or 13 that ended the line, and the input after it is left; NULL on a negative code |
| `Readlines.LineIs` | labcodes/lab1/kern/libs/readline.c:28-42 | exactly the codes 10, 13 and the negative ones end a line, and zeros are skipped |
| `Readlines.LineUnfinished` | labcodes/lab1/kern/libs/readline.c:26-28 | no other code does |
| `Readlines.KeyEffects` | labcodes/lab1/kern/libs/readline.c:31-38 | each key, at every line: 32 and above append while there are fewer than 1023 characters, 8 takes one back, others do nothing; what changes the line is echoed |
| `Readlines.TypedText` | labcodes/lab1/kern/libs/readline.c:24-45 | a printable text that fits, ended by 10 or 13, is echoed and read as it is |
| `Readlines.ScreenShowsLine` | labcodes/lab1/kern/libs/readline.c:33-38 | at every moment a terminal that replays the echo shows exactly the line |
| `Readlines.PlainTyping` | labcodes/lab1/kern/libs/readline.c:14-18 | without backspaces the line and its echo are the first 1023 characters typed |
| `Readlines.BackspaceCancels` | labcodes/lab1/kern/libs/readline.c:33-38 | a backspace takes back the key before it if and only if there was room for that key |
| `Kmonitor.Parse` | labcodes/lab1/kern/debug/kmonitor.c:33-54 | returns the number of words, argv points at each of them, whitespace becomes NUL and no other byte changes; the warning is printed exactly for 16 words |
| `Kmonitor.InWhitespace` | labcodes/lab1/kern/debug/kmonitor.c:30 | the `strchr` test finds exactly the four whitespace characters |
| `Kmonitor.WordsOfSpread` | labcodes/lab1/kern/debug/kmonitor.c:32 | words without space, tab, newline and carriage return, spread over a line with any of these, are found again |
| `Kmonitor.WordPointer` | labcodes/lab1/kern/debug/kmonitor.c:36-51 | after the cut, each pointer points at a NUL-terminated word |
| `Kmonitor.HandleLine` | labcodes/lab1/kern/debug/kmonitor.c:90-96 | one prompt reads one line, the command its first word names is called with its other words, and the console shows the prompt, the echo and the complaints |
| `Kmonitor.Runcmd` | labcodes/lab1/kern/debug/kmonitor.c:60-74 | calls the command the first word names, which finds the other words through its `argv`, or reports the unknown name, or does nothing on a blank line |
| `Kmonitor.CommandTable.Invoke` | labcodes/lab1/kern/debug/kmonitor.c:69 | a command gets the strings its pointers point at |
| `Kmonitor.CommandIff` | labcodes/lab1/kern/debug/kmonitor.c:20-24 | command 0, 1 or 2 runs with given arguments if and only if the first word is `help`, `kerninfo` or `backtrace` and they are the other words; any other first word is unknown |
| `Kmonitor.TypedCommand` | labcodes/lab1/kern/debug/kmonitor.c:89-96 | words typed with any number of spaces between them and ended by 10 or 13 make exactly the call that `help`, `kerninfo` or `backtrace` names, and the console shows the prompt, the line and the complaint, before the rest of the input is worked on |
| `Kmonitor.AnyLine` | labcodes/lab1/kern/debug/kmonitor.c:89-96 | calls and console text of the next line of every session; a failed line does nothing |
| `Kmonitor.UnfinishedLine` | labcodes/lab1/kern/debug/kmonitor.c:89-96 | an unfinished line is echoed, and nothing is called |
| `Kmonitor.Kmonitor` | labcodes/lab1/kern/debug/kmonitor.c:81-97 | over every input of bytes and negative codes whose lines have at most 16 words, the commands called and their arguments are exactly those the lines name, in order, the console shows prompts, echo and complaints accordingly, and the whole input is read |

## Left out

- Firmware (SBI calls, console hardware): an input sequence, an output sequence, a counter and the deadlines passed to it. A console on which nothing more has arrived ends a run.
- `kern_init`, `pmm_init`, `pic_init`, `cons_init`, `kdebug.c`, `panic.c`, `lab1_switch_*`: stubs or straight-line plumbing.
- `strlen`, `strcpy`, `strncpy`, `strncmp`, `strfind`, `memset`, `memcmp`, `cputs`: would only add easy members.
- What the monitor's commands print, its welcome lines and its first dump of a frame.
- More than 16 words on a monitor line, where `argv` overflows.
- Traps taken inside `SAVE_ALL` or between `csrw sepc` and `sret`: there is one `sscratch` and one `sepc`, and the code does not support them.
- `DEBUG_GRADE`, and the `volatile` of `ticks`: the timer branch is one step.
- Aliasing between the array `vsnprintf` fills and its format or string arguments.
