/** kmonitor.c: the line is cut into words in place, and the first word names a command. */
module Kmonitor {
  import opened CTypes
  import opened CStrings
  import opened Numerals
  import opened Format
  import opened FormatLaws
  import opened Sinks
  import opened Stdio
  import opened Readlines

  const MAXARGS := 16

  predicate IsSpace(c: char) { c == ' ' || c == '\t' || c == '\n' || c == '\r' }

  // ------------------------------------------------------------------- words

  /** The length of the longest prefix without whitespace. */
  function WordRun(s: string): (n: nat)
    ensures n <= |s| && (forall i :: 0 <= i < n ==> !IsSpace(s[i])) && (n < |s| ==> IsSpace(s[n]))
  {
    if s == "" || IsSpace(s[0]) then 0 else 1 + WordRun(s[1..])
  }

  /** The whitespace-separated words of a line. */
  function Words(s: string): seq<string>
    decreases |s|
  {
    if s == "" then []
    else if IsSpace(s[0]) then Words(s[1..])
    else [s[..WordRun(s)]] + Words(s[WordRun(s)..])
  }

  predicate IsWord(w: string) { w != "" && forall i :: 0 <= i < |w| ==> !IsSpace(w[i]) }

  predicate AllSpace(s: string) { forall i :: 0 <= i < |s| ==> IsSpace(s[i]) }

  /** Words with the whitespace before each of them, and whitespace at the end. */
  function Spread(spaces: seq<string>, words: seq<string>, end: string): string
    requires |spaces| == |words|
  {
    if words == [] then end else spaces[0] + (words[0] + Spread(spaces[1..], words[1..], end))
  }

  lemma {:induction false} SkipSpaces(sp: string, s: string)
    requires AllSpace(sp)
    ensures Words(sp + s) == Words(s)
  {
    if sp == "" {
      assert sp + s == s;
    } else {
      assert (sp + s)[1..] == sp[1..] + s;
      SkipSpaces(sp[1..], s);
    }
  }

  lemma TakeWord(w: string, s: string)
    requires IsWord(w) && (s == "" || IsSpace(s[0]))
    ensures Words(w + s) == [w] + Words(s)
  {
    hide WordRun;
    var t := w + s;
    var n := WordRun(t);
    assert t[0] == w[0];
    assert s != "" ==> t[|w|] == s[0];
    assert t[..n] == w && t[n..] == s;
  }

  /** However words are spread over a line, they are found again. */
  lemma {:induction false} WordsOfSpread(spaces: seq<string>, words: seq<string>, end: string)
    requires |spaces| == |words|
    requires forall i :: 0 <= i < |words| ==> words[i] != "" && (i >= 1 ==> spaces[i] != "")
    requires forall i, c :: 0 <= i < |words| && c in words[i] ==> c != ' ' && c != '\t' && c != '\n' && c != '\r'
    requires forall i, c :: 0 <= i < |words| && c in spaces[i] ==> c == ' ' || c == '\t' || c == '\n' || c == '\r'
    requires forall c :: c in end ==> c == ' ' || c == '\t' || c == '\n' || c == '\r'
    ensures Words(Spread(spaces, words, end)) == words
  {
    assert forall i :: 0 <= i < |end| ==> end[i] in end;
    if words == [] {
      SkipSpaces(end, "");
      assert end + "" == end;
    } else {
      var rest := Spread(spaces[1..], words[1..], end);
      if |words| > 1 {
        assert rest[0] == spaces[1][0];
      } else {
        assert rest == end;
      }
      assert forall i :: 0 <= i < |words[0]| ==> words[0][i] in words[0];
      assert forall i :: 0 <= i < |spaces[0]| ==> spaces[0][i] in spaces[0];
      assert |words| > 1 ==> spaces[1][0] in spaces[1];
      WordsOfSpread(spaces[1..], words[1..], end);
      TakeWord(words[0], rest);
      SkipSpaces(spaces[0], words[0] + rest);
    }
  }

  // ------------------------------------------------------------------- parse

  /** Word `w` of the line starts at `i`. */
  predicate WordAt(line: string, i: nat, w: string) {
    && i + |w| <= |line| && line[i..i + |w|] == w && IsWord(w)
    && (i + |w| < |line| ==> IsSpace(line[i + |w|]))
  }

  /** The line after `parse`: whitespace is overwritten with NUL. */
  ghost predicate Cut(old_: string, new_: string, n: nat)
    requires n <= |old_|
  {
    && |new_| == |old_|
    && forall x :: 0 <= x < |old_| ==> new_[x] == if x < n && IsSpace(old_[x]) then '\0' else old_[x]
  }

  /** What `parse` prints before it stores the last argument there is room for. */
  const WARNING := "Too many arguments (max 16).\n"

  method Warn(con: Console)
    modifies con
    ensures con.out == old(con.out) + WARNING && con.input == old(con.input)
  {
    hide Render, WARNING;
    WarningText();
    var _ := Vcprintf(con, "Too many arguments (max %d).\n\0", [Word32(MAXARGS)]);
  }

  lemma WarningText()
    ensures Render(Chars("Too many arguments (max %d).\n\0"), [Word32(MAXARGS)]) == Rendered(WARNING, [])
    ensures |WARNING| < 100
  {
    hide Render, Numeral;
    WarningParts();
    OneNumber("Too many arguments (max ", ").\n", MAXARGS);
    SixteenInDecimal();
  }

  lemma WarningParts()
    ensures var pre, post := "Too many arguments (max ", ").\n";
      && '%' !in pre && '%' !in post && pre + ("16" + post) == WARNING
      && Chars("Too many arguments (max %d).\n\0") == pre + ("%d" + post)
  {
  }

  lemma SixteenInDecimal()
    ensures Numeral(16, 10) == "16"
  {
  }

  /** `strchr(WHITESPACE, c) != NULL` */
  method InWhitespace(c: char) returns (b: bool)
    requires c != '\0'
    ensures b == IsSpace(c)
    ensures b <==> c == ' ' || c == '\t' || c == '\n' || c == '\r'
  {
    var ws := " \t\n\r\0";
    assert ws[4] == '\0' && ws[0] == ' ' && ws[1] == '\t' && ws[2] == '\n' && ws[3] == '\r';
    assert Length(ws) == 4;
    var r := Strchr(ws, c);
    b := r.Some?;
    assert Content(ws) == [' ', '\t', '\n', '\r'];
  }

  /** `parse`: the words of the line, as pointers to NUL-terminated strings in the buffer. */
  method Parse(con: Console, buf: array<char>, argv: array<nat>) returns (argc: nat)
    requires Terminated(buf[..]) && argv.Length == MAXARGS
    requires |Words(Content(buf[..]))| <= MAXARGS
    modifies buf, argv, con
    ensures argc == |Words(Content(old(buf[..])))|
    ensures Cut(old(buf[..]), buf[..], Length(old(buf[..])))
    ensures forall k :: 0 <= k < argc ==>
      WordAt(Content(old(buf[..])), argv[k], Words(Content(old(buf[..])))[k])
    ensures con.out == old(con.out) + (if argc == MAXARGS then WARNING else "") && con.input == old(con.input)
  {
    hide Words, WordAt, Cut, WordRun;
    ghost var line := Content(buf[..]);
    NothingCut(buf[..]);
    argc := 0;
    var p := 0;
    while true
      invariant p <= |line| && argc <= MAXARGS
      invariant Cut(old(buf[..]), buf[..], p)
      invariant argc + |Words(line[p..])| == |Words(line)| && Words(line)[argc..] == Words(line[p..])
      invariant forall k :: 0 <= k < argc ==> WordAt(line, argv[k], Words(line)[k])
      invariant con.out == old(con.out) + (if argc == MAXARGS then WARNING else "")
      invariant con.input == old(con.input)
      decreases |line| - p
    {
      p := SkipWhitespace(buf, p, old(buf[..]), line);
      if buf[p] == '\0' {
        NoWords(line);
        break;
      }
      FirstWord(line, p);
      if argc == MAXARGS - 1 {
        Warn(con);
      }
      argv[argc] := p;
      argc := argc + 1;
      p := SkipWord(buf, p, old(buf[..]), line);
    }
  }

  lemma NothingCut(before: string)
    ensures Cut(before, before, 0)
  {
  }

  lemma NoWords(line: string)
    ensures Words(line[|line|..]) == []
  {
  }

  /** The first loop of `parse`. */
  method SkipWhitespace(buf: array<char>, start: nat, ghost before: string, ghost line: string) returns (p: nat)
    requires Terminated(before) && line == Content(before) && start <= |line|
    requires Cut(before, buf[..], start)
    modifies buf
    ensures start <= p <= |line| && Cut(before, buf[..], p) && Words(line[p..]) == Words(line[start..])
    ensures p < |line| ==> !IsSpace(line[p])
    ensures buf[p] == '\0' <==> p == |line|
  {
    p := start;
    while buf[p] != '\0'
      invariant start <= p <= |line| && Cut(before, buf[..], p)
      invariant Words(line[p..]) == Words(line[start..])
      invariant buf[p] == '\0' <==> p == |line|
      decreases |line| - p
    {
      var space := InWhitespace(buf[p]);
      if !space {
        break;
      }
      assert line[p..][1..] == line[p + 1..];
      buf[p] := '\0';
      p := p + 1;
    }
  }

  /** The second loop of `parse`. */
  method SkipWord(buf: array<char>, start: nat, ghost before: string, ghost line: string) returns (p: nat)
    requires Terminated(before) && line == Content(before)
    requires start < |line| && !IsSpace(line[start]) && Cut(before, buf[..], start)
    ensures p == start + WordRun(line[start..]) && Cut(before, buf[..], p)
  {
    p := start;
    while buf[p] != '\0'
      invariant start <= p <= |line|
      invariant forall x :: start <= x < p ==> !IsSpace(line[x])
      decreases |line| - p
    {
      var space := InWhitespace(buf[p]);
      if space {
        break;
      }
      p := p + 1;
    }
    var rest := line[start..];
    assert p < |line| ==> rest[p - start] == line[p];
  }

  /** The word at a position that is not whitespace. */
  lemma FirstWord(line: string, p: nat)
    requires p < |line| && !IsSpace(line[p])
    ensures var n := WordRun(line[p..]);
      && Words(line[p..]) == [line[p..p + n]] + Words(line[p + n..])
      && WordAt(line, p, line[p..p + n]) && n >= 1
  {
    hide WordRun;
    var n, s := WordRun(line[p..]), line[p..];
    assert s[0] == line[p];
    SubSlice(line, p, |line|, 0, n);
    SubSlice(line, p, |line|, n, |s|);
    assert s == line[p..|line|] && s[..n] == line[p..p + n] && s[n..] == line[p + n..];
    assert forall i :: 0 <= i < n ==> line[p..p + n][i] == s[i];
    assert n < |s| ==> s[n] == line[p + n];
  }

  // ----------------------------------------------------------------- commands

  const COMMANDS := ["help", "kerninfo", "backtrace"]

  /** What a line makes the monitor do. */
  datatype Outcome = Nothing | Invoked(command: nat, args: seq<string>) | Unknown(name: string)

  /** The first command from the `i`-th on with the given name. */
  function FindCommand(name: string, i: nat): (r: nat)
    requires i <= |COMMANDS|
    ensures i <= r <= |COMMANDS|
    ensures forall j :: i <= j < r ==> COMMANDS[j] != name
    ensures r < |COMMANDS| ==> COMMANDS[r] == name
    decreases |COMMANDS| - i
  {
    if i == |COMMANDS| || COMMANDS[i] == name then i else FindCommand(name, i + 1)
  }

  function Command(words: seq<string>): Outcome {
    if words == [] then Nothing
    else
      var i := FindCommand(words[0], 0);
      if i < |COMMANDS| then Invoked(i, words[1..]) else Unknown(words[0])
  }

  /** A command runs exactly if the first word is its name, and gets exactly the other words. */
  lemma CommandIff(words: seq<string>)
    ensures forall i: nat, args :: Command(words) == Invoked(i, args) <==>
      words != [] && args == words[1..] &&
      ((i == 0 && words[0] == "help") || (i == 1 && words[0] == "kerninfo") || (i == 2 && words[0] == "backtrace"))
    ensures forall name :: Command(words) == Unknown(name) <==>
      words != [] && name == words[0] && name != "help" && name != "kerninfo" && name != "backtrace"
    ensures Command(words).Nothing? <==> words == []
  {
  }

  /** A call of one of the command functions: which one, and the strings its `argv` held. */
  datatype Invocation = Invocation(command: nat, args: seq<string>)

  /** The calls a line makes. */
  function CallsOf(words: seq<string>): seq<Invocation> {
    var o := Command(words);
    if o.Invoked? then [Invocation(o.command, o.args)] else []
  }

  /** The functions of the command table; `calls` holds what they were called with. */
  class CommandTable {
    var calls: seq<Invocation>

    constructor ()
      ensures calls == []
    {
      calls := [];
    }

    /** `commands[i].func`: it finds the strings its pointers point at. All commands return 0. */
    method Invoke(i: nat, mem: array<char>, argv: seq<nat>, ghost args: seq<string>) returns (r: int)
      requires |args| == |argv| && forall k :: 0 <= k < |argv| ==> PointsTo(mem[..], argv[k], args[k])
      modifies this
      ensures calls == old(calls) + [Invocation(i, args)] && r == 0
    {
      var found: seq<string> := [];
      for k := 0 to |argv|
        invariant found == args[..k]
      {
        assert PointsTo(mem[..], argv[k], args[k]) && mem[argv[k]..] == mem[..][argv[k]..];
        found := found + [Content(mem[argv[k]..])];
      }
      assert found == args;
      calls := calls + [Invocation(i, found)];
      r := 0;
    }
  }

  ghost predicate PointsTo(mem: string, p: nat, s: string) {
    p < |mem| && Terminated(mem[p..]) && Content(mem[p..]) == s
  }

  lemma WordPointer(before: string, after: string, p: nat, w: string)
    requires Terminated(before) && Cut(before, after, Length(before)) && WordAt(Content(before), p, w)
    ensures PointsTo(after, p, w)
  {
    var line := Content(before);
    var s, n := after[p..], |w|;
    assert s[n] == after[p + n] == '\0';
    assert forall x :: 0 <= x < n ==> s[x] == after[p + x] && w[x] == line[p..p + n][x] && s[x] == w[x];
    assert Length(s) == n;
    assert s[..n] == w;
  }

  function UnknownText(name: string): string { "Unknown command '" + (name + "'\n") }

  /** What `runcmd` itself prints for the words of a line. */
  function Complaints(words: seq<string>): string {
    (if |words| == MAXARGS then WARNING else "")
    + (if Command(words).Unknown? then UnknownText(words[0]) else "")
  }

  /** The calls and complaints of a line, case by case. */
  lemma WhatIsDone(words: seq<string>)
    ensures var warning := if |words| == MAXARGS then WARNING else "";
      if words == [] then CallsOf(words) == [] && Complaints(words) == warning == ""
      else
        var i := FindCommand(words[0], 0);
        if i < |COMMANDS| then CallsOf(words) == [Invocation(i, words[1..])] && Complaints(words) == warning
        else CallsOf(words) == [] && Complaints(words) == warning + UnknownText(words[0])
  {
    hide FindCommand;
  }

  /** `runcmd` */
  method Runcmd(con: Console, table: CommandTable, buf: array<char>) returns (r: int)
    requires buf.Length == BUFSIZE && Terminated(buf[..])
    requires |Words(Content(buf[..]))| <= MAXARGS
    modifies buf, con, table
    ensures table.calls == old(table.calls) + CallsOf(Words(Content(old(buf[..])))) && r == 0
    ensures con.out == old(con.out) + Complaints(Words(Content(old(buf[..])))) && con.input == old(con.input)
  {
    hide Words, WordAt, Cut, PointsTo, Command, CallsOf, Complaints, FindCommand;
    ghost var before := buf[..];
    ghost var words := Words(Content(before));
    WhatIsDone(words);
    var argv := new nat[MAXARGS];
    var argc := Parse(con, buf, argv);
    forall k | 0 <= k < argc ensures PointsTo(buf[..], argv[k], words[k]) {
      WordPointer(before, buf[..], argv[k], words[k]);
    }
    if argc == 0 {
      return 0;
    }
    var i := FindNamed(buf, argv[0], words[0]);
    if i < |COMMANDS| {
      r := table.Invoke(i, buf, argv[1..argc], words[1..]);
      return;
    }
    PutUnknown(con, buf, argv[0], words[0]);
    return 0;
  }

  /** The lookup loop of `runcmd`. */
  method FindNamed(buf: array<char>, p: nat, ghost name: string) returns (i: nat)
    requires PointsTo(buf[..], p, name)
    ensures i == FindCommand(name, 0)
  {
    i := 0;
    while i < |COMMANDS|
      invariant i <= |COMMANDS| && FindCommand(name, 0) == FindCommand(name, i)
    {
      var found := IsNamed(i, buf, p, name);
      if found {
        return i;
      }
      i := i + 1;
    }
  }

  /** `strcmp(commands[i].name, argv[0]) == 0` */
  method IsNamed(i: nat, buf: array<char>, p: nat, ghost name: string) returns (b: bool)
    requires i < |COMMANDS| && PointsTo(buf[..], p, name)
    ensures b == (COMMANDS[i] == name)
  {
    var c := COMMANDS[i] + "\0";
    CommandIsCString(i);
    CStringLength(c);
    assert Chars(c) == COMMANDS[i];
    assert buf[p..] == buf[..][p..];
    var r := Strcmp(c, buf[p..]);
    b := r == 0;
  }

  lemma CommandIsCString(i: nat)
    requires i < |COMMANDS|
    ensures IsCString(COMMANDS[i] + "\0")
  {
  }

  method PutUnknown(con: Console, buf: array<char>, p: nat, ghost name: string)
    requires buf.Length == BUFSIZE && PointsTo(buf[..], p, name)
    modifies con
    ensures con.out == old(con.out) + UnknownText(name) && con.input == old(con.input)
  {
    hide Render;
    assert buf[p..] == buf[..][p..];
    var arg: CString := Content(buf[p..]) + "\0";
    assert Chars(arg) == name;
    var pre, post := "Unknown command '", "'\n";
    OneString(pre, post, arg);
    assert Chars("Unknown command '%s'\n\0") == pre + ("%s" + post);
    var _ := Vcprintf(con, "Unknown command '%s'\n\0", [Text(Some(arg))]);
  }

  // ------------------------------------------------------------------ monitor

  // The monitor works on the input that has arrived: a failed `readline` is tried again, and
  // an unfinished line is waited for.

  const PROMPT := "K> "

  /** What the console shows of the next line, without what the command prints. */
  function LineOutput(input: seq<int>): string {
    var (keys, end, rest) := LineOf(input);
    PROMPT + Echo(keys) + EchoEnd(end) +
    if end.Some? && end.value >= 0 then Complaints(Words(Edit(keys))) else ""
  }

  function Transcript(input: seq<int>): string
    decreases |input|
  {
    var (_, end, rest) := LineOf(input);
    LineOutput(input) + if end.Some? then Transcript(rest) else ""
  }

  /** The calls of the next line, and of a session. */
  function LineCalls(input: seq<int>): seq<Invocation> {
    var (keys, end, rest) := LineOf(input);
    if end.Some? && end.value >= 0 then CallsOf(Words(Edit(keys))) else []
  }

  function Calls(input: seq<int>): seq<Invocation>
    decreases |input|
  {
    var (_, end, rest) := LineOf(input);
    LineCalls(input) + if end.Some? then Calls(rest) else []
  }

  /** Words with spaces before each of them, and at the end. */
  function Spaced(gaps: seq<nat>, words: seq<string>, last: nat): string
    requires |gaps| == |words|
  {
    if words == [] then Repeat(' ', last)
    else Repeat(' ', gaps[0]) + (words[0] + Spaced(gaps[1..], words[1..], last))
  }

  lemma {:induction false} WordsOfSpaced(gaps: seq<nat>, words: seq<string>, last: nat)
    requires |gaps| == |words| && forall i :: 0 <= i < |words| ==> words[i] != "" && (i >= 1 ==> gaps[i] >= 1)
    requires forall i, c :: 0 <= i < |words| && c in words[i] ==> 32 < c as int < 256
    ensures Words(Spaced(gaps, words, last)) == words
  {
    hide Words, Spaced;
    SpacedStep(gaps, words, last);
    if words == [] {
      Blanks(last, "");
      assert Repeat(' ', last) + "" == Repeat(' ', last);
      assert Words("") == [] by { NoWords(""); }
    } else {
      var rest := Spaced(gaps[1..], words[1..], last);
      WordsOfSpaced(gaps[1..], words[1..], last);
      SpacedStarts(gaps[1..], words[1..], last);
      PlainWord(words[0]);
      TakeWord(words[0], rest);
      Blanks(gaps[0], words[0] + rest);
    }
  }

  lemma {:induction false} SpacedIsPrintable(gaps: seq<nat>, words: seq<string>, last: nat)
    requires |gaps| == |words|
    requires forall i, c :: 0 <= i < |words| && c in words[i] ==> 32 < c as int < 256
    ensures forall c :: c in Spaced(gaps, words, last) ==> 32 <= c as int < 256
  {
    if words != [] {
      SpacedIsPrintable(gaps[1..], words[1..], last);
      assert words[0] == words[0];
    }
  }

  lemma SpacedStep(gaps: seq<nat>, words: seq<string>, last: nat)
    requires |gaps| == |words|
    ensures Spaced(gaps, words, last) ==
            if words == [] then Repeat(' ', last)
            else Repeat(' ', gaps[0]) + (words[0] + Spaced(gaps[1..], words[1..], last))
  {
  }

  lemma SpacedStarts(gaps: seq<nat>, words: seq<string>, last: nat)
    requires |gaps| == |words| && (words != [] ==> gaps[0] >= 1)
    ensures var line := Spaced(gaps, words, last); line != "" ==> IsSpace(line[0])
  {
    hide Words;
  }

  lemma Blanks(n: nat, s: string)
    ensures Words(Repeat(' ', n) + s) == Words(s)
  {
    SkipSpaces(Repeat(' ', n), s);
  }

  lemma PlainWord(w: string)
    requires w != "" && forall c :: c in w ==> 32 < c as int < 256
    ensures IsWord(w)
  {
    assert forall i :: 0 <= i < |w| ==> w[i] in w;
  }

  /** Words typed with any number of spaces between them, and ended with a newline or a
      carriage return: the command they name is called with them, or the console shows the
      complaint. */
  lemma TypedCommand(gaps: seq<nat>, words: seq<string>, last: nat, end: int, rest: seq<int>)
    requires |gaps| == |words| <= 16 && (end == 10 || end == 13)
    requires forall i :: 0 <= i < |words| ==> words[i] != "" && (i >= 1 ==> gaps[i] >= 1)
    requires forall i, c :: 0 <= i < |words| && c in words[i] ==> 32 < c as int < 256
    requires |Spaced(gaps, words, last)| <= 1023
    ensures var line := Spaced(gaps, words, last);
      var input := Codes(line) + ([end] + rest);
      && Calls(input) ==
         (if words == [] then []
          else if words[0] == "help" then [Invocation(0, words[1..])]
          else if words[0] == "kerninfo" then [Invocation(1, words[1..])]
          else if words[0] == "backtrace" then [Invocation(2, words[1..])]
          else []) + Calls(rest)
      && Transcript(input) ==
         "K> " + line + [end as char] +
         ((if |words| == 16 then "Too many arguments (max 16).\n" else "") +
          (if words != [] && words[0] != "help" && words[0] != "kerninfo" && words[0] != "backtrace"
           then "Unknown command '" + (words[0] + "'\n") else "")) +
         Transcript(rest)
  {
    hide Words, Edit, LineOf, Echo, Spaced, Complaints, CallsOf;
    var line := Spaced(gaps, words, last);
    WordsOfSpaced(gaps, words, last);
    SpacedIsPrintable(gaps, words, last);
    assert forall i :: 0 <= i < |line| ==> line[i] in line;
    TypedText(line, end, rest);
    NothingDropped(Codes(line));
    AnyLine(Codes(line), end, rest);
    Done(words);
  }

  /** The calls and complaints of a line, by name. */
  lemma Done(words: seq<string>)
    ensures CallsOf(words) ==
            if words == [] then []
            else if words[0] == "help" then [Invocation(0, words[1..])]
            else if words[0] == "kerninfo" then [Invocation(1, words[1..])]
            else if words[0] == "backtrace" then [Invocation(2, words[1..])]
            else []
    ensures Complaints(words) ==
            (if |words| == 16 then "Too many arguments (max 16).\n" else "") +
            (if words != [] && words[0] != "help" && words[0] != "kerninfo" && words[0] != "backtrace"
             then "Unknown command '" + (words[0] + "'\n") else "")
  {
  }

  /** The next line of a session, for every input. */
  lemma AnyLine(keys: seq<int>, end: int, rest: seq<int>)
    requires forall i :: 0 <= i < |keys| ==> keys[i] >= 0 && keys[i] != 10 && keys[i] != 13
    requires end == 10 || end == 13 || end < 0
    ensures var input, typed := keys + ([end] + rest), NonZero(keys); var words := Words(Edit(typed));
      && Calls(input) == (if end < 0 then [] else CallsOf(words)) + Calls(rest)
      && Transcript(input) == "K> " + Echo(typed) +
                              (if end < 0 then "" else [end as char] + Complaints(words)) + Transcript(rest)
  {
    hide LineOf, LineOutput, LineCalls, Words, Edit, CallsOf, Complaints, Echo, Calls, Transcript;
    LineIs(keys, end, rest);
    SessionStep(keys + ([end] + rest));
    OneLine(keys + ([end] + rest), NonZero(keys), end, rest);
  }

  lemma OneLine(input: seq<int>, typed: seq<int>, end: int, rest: seq<int>)
    requires LineOf(input) == (typed, Some(end), rest) && (end == 10 || end == 13 || end < 0)
    ensures var words := Words(Edit(typed));
      && LineCalls(input) == (if end < 0 then [] else CallsOf(words))
      && LineOutput(input) == "K> " + Echo(typed) + if end < 0 then "" else [end as char] + Complaints(words)
  {
    hide LineOf, Words, Edit, CallsOf, Complaints, Echo;
    if end >= 0 {
      assert ToChar(end) == end as char;
      Join("K> " + Echo(typed), [end as char], Complaints(Words(Edit(typed))));
    }
  }

  lemma Join(a: string, b: string, c: string)
    ensures a + b + c == a + (b + c)
  {
  }

  /** An unfinished line is waited for. */
  lemma UnfinishedLine(keys: seq<int>)
    requires forall i :: 0 <= i < |keys| ==> keys[i] >= 0 && keys[i] != 10 && keys[i] != 13
    ensures Calls(keys) == [] && Transcript(keys) == "K> " + Echo(NonZero(keys))
  {
    hide LineOf, Words, Edit, CallsOf, Complaints, Echo, Calls, Transcript;
    LineUnfinished(keys);
    SessionStep(keys);
    var shown := "K> " + Echo(NonZero(keys));
    assert LineOutput(keys) == shown + "" + "" == shown;
    assert shown + "" == shown;
  }

  /** No line has more words than there is room for. */
  predicate LinesFit(input: seq<int>)
    decreases |input|
  {
    var (keys, end, rest) := LineOf(input);
    end.Some? ==> |Words(Edit(keys))| <= MAXARGS && LinesFit(rest)
  }

  /** The loop of `kmonitor`. All three commands return 0, so it is never left. */
  method Kmonitor(ed: Editor, table: CommandTable)
    requires ed.buf.Length == BUFSIZE && AllBytes(ed.con.input) && LinesFit(ed.con.input)
    modifies ed.buf, ed.con, table
    ensures table.calls == old(table.calls) + Calls(old(ed.con.input)) && ed.con.input == []
    ensures ed.con.out == old(ed.con.out) + Transcript(old(ed.con.input))
  {
    hide LineOf, LineOutput, AllBytes, Calls, Transcript, LinesFit;
    while true
      invariant AllBytes(ed.con.input) && LinesFit(ed.con.input)
      invariant old(table.calls) + Calls(old(ed.con.input)) == table.calls + Calls(ed.con.input)
      invariant old(ed.con.out) + Transcript(old(ed.con.input)) == ed.con.out + Transcript(ed.con.input)
      decreases |ed.con.input|
    {
      KeysAreBytes(ed.con.input);
      SessionStep(ed.con.input);
      var more, r := HandleLine(ed, table);
      if !more || r < 0 {
        return;
      }
    }
  }

  lemma SessionStep(input: seq<int>)
    ensures var (keys, end, rest) := LineOf(input);
      && Calls(input) == LineCalls(input) + (if end.Some? then Calls(rest) else [])
      && Transcript(input) == LineOutput(input) + (if end.Some? then Transcript(rest) else "")
      && (LinesFit(input) && end.Some? ==> LinesFit(rest))
  {
    hide LineOf, LineOutput, Words, Edit, CallsOf;
  }

  /** One turn of the loop; there is no more to do when the line is not finished. */
  method HandleLine(ed: Editor, table: CommandTable) returns (more: bool, r: int)
    requires ed.buf.Length == BUFSIZE && AllBytes(ed.con.input) && LinesFit(ed.con.input)
    modifies ed.buf, ed.con, table
    ensures var (keys, end, rest) := LineOf(old(ed.con.input));
      ed.con.input == rest && more == end.Some? && r == 0
    ensures table.calls == old(table.calls) + LineCalls(old(ed.con.input))
    ensures ed.con.out == old(ed.con.out) + LineOutput(old(ed.con.input))
  {
    hide Words, CallsOf, Edit, Echo, EchoEnd, Complaints, LineOf;
    ghost var (keys, end, rest) := LineOf(ed.con.input);
    KeysAreBytes(ed.con.input);
    EndsAre(ed.con.input);
    assert Chars("K> \0") == PROMPT;
    var line := ed.Readline(Some("K> \0"));
    more, r := line != Waiting, 0;
    if line.Line? {
      LineHasNoNul(keys);
      LineInBuffer(ed.buf[..], line.length, Edit(keys));
      r := Runcmd(ed.con, table, ed.buf);
    }
  }

  lemma LineInBuffer(mem: string, n: nat, line: string)
    requires n < |mem| && mem[..n] == line && mem[n] == '\0' && '\0' !in line
    ensures Terminated(mem) && Content(mem) == line
  {
  }
}
