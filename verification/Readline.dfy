/** readline.c: a line editor that echoes what it accepts. */
module Readlines {
  import opened CTypes
  import opened Format
  import opened FormatLaws
  import opened Sinks
  import opened Stdio

  const BUFSIZE := 1024
  const BACKSPACE := 8

  // ------------------------------------------------------------ specification

  predicate IsNewline(c: int) { c == '\n' as int || c == '\r' as int }

  /** What one key does to the line. */
  function EditKey(line: string, c: int): string {
    if c >= ' ' as int && |line| < BUFSIZE - 1 then line + [ToChar(c)]
    else if c == BACKSPACE && |line| > 0 then line[..|line| - 1]
    else line
  }

  /** The line after typing `keys`. */
  function Edit(keys: seq<int>): (line: string)
    ensures |line| <= BUFSIZE - 1
  {
    if keys == [] then "" else EditKey(Edit(keys[..|keys| - 1]), keys[|keys| - 1])
  }

  /** The character a key sends back: itself if it changed the line. */
  function EchoOf(line: string, c: int): string {
    if EditKey(line, c) != line then [ToChar(c)] else ""
  }

  /** The characters sent back while `keys` are typed: the keys that changed the line. */
  function Echo(keys: seq<int>): string {
    if keys == [] then ""
    else
      var line, c := Edit(keys[..|keys| - 1]), keys[|keys| - 1];
      Echo(keys[..|keys| - 1]) + EchoOf(line, c)
  }

  /** What a terminal shows for the characters it received. */
  function Screen(out: string): string {
    if out == "" then ""
    else
      var shown, c := Screen(out[..|out| - 1]), out[|out| - 1];
      if c as int == BACKSPACE then (if shown == "" then "" else shown[..|shown| - 1]) else shown + [c]
  }

  /** The keys up to the one that ends the line, that key, and the input after it. */
  function LineOf(input: seq<int>): (r: (seq<int>, Option<int>, seq<int>))
    ensures |r.2| <= |input| && (if r.1.Some? then |r.2| < |input| else r.2 == [])
    decreases |input|
  {
    var (c, rest) := NextByte(input);
    if c.None? then ([], None, [])
    else if c.value < 0 || IsNewline(c.value) then ([], c, rest)
    else var r := LineOf(rest); ([c.value] + r.0, r.1, r.2)
  }

  // -------------------------------------------------------------------- laws

  lemma LineStep(input: seq<int>)
    ensures var (c, rest) := NextByte(input);
      LineOf(input) ==
      if c.None? then ([], None, [])
      else if c.value < 0 || IsNewline(c.value) then ([], c, rest)
      else ([c.value] + LineOf(rest).0, LineOf(rest).1, LineOf(rest).2)
  {
  }

  lemma EditStep(keys: seq<int>, c: int)
    ensures Edit(keys + [c]) == EditKey(Edit(keys), c)
    ensures Echo(keys + [c]) == Echo(keys) + EchoOf(Edit(keys), c)
  {
  }

  /** At every moment the terminal shows exactly the line. */
  lemma {:induction false} ScreenShowsLine(keys: seq<int>)
    requires forall i :: 0 <= i < |keys| ==> 0 <= keys[i] < 256
    ensures Screen(Echo(keys)) == Edit(keys)
  {
    hide Screen, Edit, Echo;
    NothingTyped();
    if keys == [] {
      NothingShown();
    } else {
      var front, c := keys[..|keys| - 1], keys[|keys| - 1];
      assert keys == front + [c];
      ScreenShowsLine(front);
      EditStep(front, c);
      ScreenStep(Echo(front), ToChar(c));
      assert ToChar(c) as int == c;
    }
  }

  lemma NothingShown()
    ensures Screen("") == ""
  {
  }

  lemma ScreenStep(out: string, c: char)
    ensures Screen(out + [c]) ==
            if c as int != BACKSPACE then Screen(out) + [c]
            else if Screen(out) == "" then "" else Screen(out)[..|Screen(out)| - 1]
    ensures Screen(out + "") == Screen(out)
  {
    assert (out + [c])[..|out|] == out;
    assert out + "" == out;
  }

  /** Typing without backspaces gives the first characters; the end is discarded. */
  lemma {:induction false} PlainTyping(keys: seq<int>)
    requires forall i :: 0 <= i < |keys| ==> 32 <= keys[i] < 256
    ensures |Edit(keys)| == if |keys| < 1023 then |keys| else 1023
    ensures forall i :: 0 <= i < |Edit(keys)| ==> Edit(keys)[i] as int == keys[i]
    ensures Echo(keys) == Edit(keys)
  {
    hide Edit, Echo;
    NothingTyped();
    if keys != [] {
      var front, c := keys[..|keys| - 1], keys[|keys| - 1];
      assert keys == front + [c];
      PlainTyping(front);
      EditStep(front, c);
      assert Echo(front) + "" == Echo(front) && ToChar(c) as int == c;
    }
  }

  /** What each key does to the line, and which keys are sent back. */
  lemma KeyEffects(keys: seq<int>, c: int)
    ensures 32 <= c < 256 && |Edit(keys)| < 1023 ==>
            Edit(keys + [c]) == Edit(keys) + [c as char] && Echo(keys + [c]) == Echo(keys) + [c as char]
    ensures c == 8 && Edit(keys) != "" ==>
            Edit(keys + [c]) == Edit(keys)[..|Edit(keys)| - 1] && Echo(keys + [c]) == Echo(keys) + [8 as char]
    ensures (c < 32 && c != 8) || (c == 8 && Edit(keys) == "") || (c >= 32 && |Edit(keys)| >= 1023) ==>
            Edit(keys + [c]) == Edit(keys) && Echo(keys + [c]) == Echo(keys)
  {
    hide Edit, Echo;
    EditStep(keys, c);
    assert Echo(keys) + "" == Echo(keys);
    assert 0 <= c < 256 ==> ToChar(c) == c as char;
  }

  /** A backspace takes back the key before it exactly if there was room for that key. */
  lemma BackspaceCancels(keys: seq<int>, c: int)
    requires 32 <= c
    ensures Edit(keys + [c] + [8]) == Edit(keys) <==> |Edit(keys)| < 1023
  {
  }

  function Codes(t: string): (r: seq<int>)
    ensures |r| == |t| && forall i :: 0 <= i < |t| ==> r[i] == t[i] as int
  {
    if t == "" then [] else [t[0] as int] + Codes(t[1..])
  }

  /** A printable text that fits, typed and ended with a newline (10) or a carriage return
      (13), is shown and read as it is. */
  lemma TypedText(t: string, end: int, rest: seq<int>)
    requires (forall i :: 0 <= i < |t| ==> 32 <= t[i] as int < 256) && |t| <= 1023 && (end == 10 || end == 13)
    ensures LineOf(Codes(t) + ([end] + rest)) == (Codes(t), Some(end), rest)
    ensures Edit(Codes(t)) == Echo(Codes(t)) == t
  {
    hide LineOf, Edit, Echo, NonZero;
    var keys := Codes(t);
    LineIs(keys, end, rest);
    NothingDropped(keys);
    PlainTyping(keys);
    var line := Edit(keys);
    assert forall i :: 0 <= i < |line| ==> line[i] as int == t[i] as int;
    assert forall i :: 0 <= i < |line| ==> line[i] == (line[i] as int) as char == t[i];
  }

  /** The codes that are not zero. */
  function NonZero(input: seq<int>): seq<int> {
    if input == [] then []
    else if input[0] == 0 then NonZero(input[1..])
    else [input[0]] + NonZero(input[1..])
  }

  lemma {:induction false} NothingDropped(keys: seq<int>)
    requires 0 !in keys
    ensures NonZero(keys) == keys
  {
    if keys != [] {
      NothingDropped(keys[1..]);
    }
  }

  /** Exactly the codes 10 and 13 and the negative ones end a line; before that only zeros
      are skipped. */
  lemma {:induction false} LineIs(keys: seq<int>, end: int, rest: seq<int>)
    requires forall i :: 0 <= i < |keys| ==> keys[i] >= 0 && keys[i] != 10 && keys[i] != 13
    requires end == 10 || end == 13 || end < 0
    ensures LineOf(keys + ([end] + rest)) == (NonZero(keys), Some(end), rest)
  {
    var input := keys + ([end] + rest);
    if keys == [] {
      assert input == [end] + rest;
    } else {
      assert input[1..] == keys[1..] + ([end] + rest);
      LineIs(keys[1..], end, rest);
      LineFirst(input);
    }
  }

  /** Without such a code the line is not finished. */
  lemma {:induction false} LineUnfinished(keys: seq<int>)
    requires forall i :: 0 <= i < |keys| ==> keys[i] >= 0 && keys[i] != 10 && keys[i] != 13
    ensures LineOf(keys) == (NonZero(keys), None, [])
  {
    if keys != [] {
      LineUnfinished(keys[1..]);
      LineFirst(keys);
    }
  }

  lemma LineFirst(input: seq<int>)
    requires input != [] && input[0] >= 0 && input[0] != 10 && input[0] != 13
    ensures var r := LineOf(input[1..]);
      LineOf(input) == if input[0] == 0 then r else ([input[0]] + r.0, r.1, r.2)
  {
  }

  predicate AllBytes(input: seq<int>) { forall i :: 0 <= i < |input| ==> input[i] < 256 }

  /** The keys of a line are bytes that are neither zero nor an end. */
  lemma {:induction false} KeysAreBytes(input: seq<int>)
    requires AllBytes(input)
    ensures var (keys, end, rest) := LineOf(input);
      AllBytes(rest) && forall i :: 0 <= i < |keys| ==> 0 < keys[i] < 256 && !IsNewline(keys[i])
    decreases |input|
  {
    LineStep(input);
    var (c, rest) := NextByte(input);
    NextIsByte(input);
    if c.Some? && !(c.value < 0 || IsNewline(c.value)) {
      KeysAreBytes(rest);
    }
  }

  lemma {:induction false} NextIsByte(input: seq<int>)
    requires AllBytes(input)
    ensures var (c, rest) := NextByte(input);
      AllBytes(rest) && (c.Some? ==> c.value != 0 && c.value < 256)
  {
    if input != [] && input[0] == 0 {
      NextIsByte(input[1..]);
    }
  }

  /** A line holds no NUL. */
  lemma {:induction false} LineHasNoNul(keys: seq<int>)
    requires AllBytes(keys)
    ensures '\0' !in Edit(keys)
  {
    if keys != [] {
      LineHasNoNul(keys[..|keys| - 1]);
    }
  }

  // -------------------------------------------------------------- the method

  /** What `readline` returns: the line in the buffer, NULL, or nothing yet because the
      input that has arrived does not end the line. */
  datatype Result = Line(length: nat) | Failed | Waiting

  function ResultOf(keys: seq<int>, end: Option<int>): Result {
    if end.None? then Waiting else if end.value < 0 then Failed else Line(|Edit(keys)|)
  }

  /** A newline is echoed, too. */
  function EchoEnd(end: Option<int>): string {
    if end.Some? && end.value >= 0 then [ToChar(end.value)] else ""
  }

  lemma NothingTyped()
    ensures Edit([]) == "" && Echo([]) == ""
  {
  }

  lemma {:induction false} EndsAre(input: seq<int>)
    ensures var end := LineOf(input).1;
      EchoEnd(end) == (if end == Some(10) then "\n" else if end == Some(13) then "\r" else "")
    ensures var end := LineOf(input).1; end.Some? && end.value >= 0 ==> end.value == 10 || end.value == 13
    decreases |input|
  {
    LineStep(input);
    var (c, rest) := NextByte(input);
    if c.Some? && !(c.value < 0 || IsNewline(c.value)) {
      EndsAre(rest);
    }
  }

  class Editor {
    const buf: array<char>
    const con: Console

    constructor (con: Console)
      ensures this.con == con && fresh(buf) && buf.Length == BUFSIZE
    {
      this.con := con;
      buf := new char[BUFSIZE];
    }

    /** `readline`: the buffer holds the edited line, and the console has shown it. */
    method Readline(prompt: Option<CString>) returns (r: Result)
      requires buf.Length == BUFSIZE
      requires prompt.Some? ==> |prompt.value| < INT_MAX
      modifies buf, con
      ensures var (keys, end, rest) := LineOf(old(con.input));
        && con.input == rest
        && con.out == old(con.out) + (if prompt.Some? then Chars(prompt.value) else "") + Echo(keys) +
                      (if end == Some(10) then "\n" else if end == Some(13) then "\r" else "")
        && r == (if end.None? then Waiting else if end.value < 0 then Failed else Line(|Edit(keys)|))
        && (r.Line? ==> buf[..r.length] == Edit(keys) && buf[r.length] == '\0')
    {
      hide LineOf, Edit, Echo;
      if prompt.Some? {
        PutPrompt(prompt.value);
      }
      ghost var input := con.input;
      r := ReadKeys();
      EndsAre(input);
    }

    method PutPrompt(prompt: CString)
      requires |prompt| < INT_MAX
      modifies con
      ensures con.out == old(con.out) + Chars(prompt) && con.input == old(con.input)
    {
      hide Render;
      OneString("", "", prompt);
      assert "" + ("%s" + "") == Chars("%s\0");
      assert "" + (Chars(prompt) + "") == Chars(prompt);
      var _ := Vcprintf(con, "%s\0", [Text(Some(prompt))]);
    }

    /** The loop of `readline`. */
    method ReadKeys() returns (r: Result)
      requires buf.Length == BUFSIZE
      modifies buf, con
      ensures var (keys, end, rest) := LineOf(old(con.input));
        && con.input == rest
        && con.out == old(con.out) + Echo(keys) + EchoEnd(end)
        && r == ResultOf(keys, end)
        && (r.Line? ==> buf[..r.length] == Edit(keys) && buf[r.length] == '\0')
    {
      hide LineOf, Edit, Echo, NextByte;
      ghost var keys, input: seq<int> := [], con.input;
      var i := 0;
      NothingTyped();
      assert [] + LineOf(input).0 == LineOf(input).0;
      while true
        invariant con.out == old(con.out) + Echo(keys)
        invariant i == |Edit(keys)| && buf[..i] == Edit(keys)
        invariant LineOf(input).0 == keys + LineOf(con.input).0
        invariant LineOf(input).1 == LineOf(con.input).1 && LineOf(input).2 == LineOf(con.input).2
        decreases |con.input|
      {
        LineStep(con.input);
        var key, _ := Getchar(con);
        if key.None? {
          assert LineOf(input).0 == keys;
          return Waiting;
        }
        var c := key.value;
        if c < 0 {
          assert LineOf(input).0 == keys;
          return Failed;
        } else if c >= ' ' as int && i < BUFSIZE - 1 {
          con.Putc(ToChar(c));
          buf[i] := ToChar(c);
          i := i + 1;
        } else if c == BACKSPACE && i > 0 {
          con.Putc(ToChar(c));
          i := i - 1;
        } else if IsNewline(c) {
          assert LineOf(input).0 == keys;
          con.Putc(ToChar(c));
          buf[i] := '\0';
          return Line(i);
        }
        EditStep(keys, c);
        assert keys + ([c] + LineOf(con.input).0) == keys + [c] + LineOf(con.input).0;
        keys := keys + [c];
      }
    }
  }
}
