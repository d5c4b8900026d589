/** Where formatted characters go. */
module Sinks {
  import opened CTypes

  /** The firmware console: an output sequence, and the bytes that will arrive. */
  class Console {
    var out: string
    var input: seq<int>

    constructor (input: seq<int>)
      ensures out == "" && this.input == input
    {
      this.out, this.input := "", input;
    }

    /** `cons_putc` and `cputchar` */
    method Putc(c: char)
      modifies this`out
      ensures out == old(out) + [c]
    {
      out := out + [c];
    }
  }

  /** The two callbacks the kernel passes to `vprintfmt`. */
  datatype Putch = Sprintputch | Cputch

  /** A callback together with its `putdat`: a `struct sprintbuf` over the array `str`, or
      the counter of `vcprintf`. Both callbacks keep the low eight bits of the `int` they
      are given, so `Put` takes the resulting character. */
  class Sink {
    const putch: Putch
    const con: Console?
    const str: array?<char>
    const ebuf: int
    var buf: nat
    var cnt: int32
    ghost var stream: string        // every character received
    ghost const before: string      // contents of the console or the array at the start
    ghost const pending: seq<int>   // console input, which printing does not touch

    ghost predicate Valid()
      reads this, con, str
    {
      && cnt == |stream|
      && match putch
         case Sprintputch =>
           && str != null && 0 <= ebuf < str.Length == |before|
           && buf == Min(|stream|, ebuf)
           && str[..] == stream[..buf] + before[buf..]
         case Cputch =>
           && con != null && con.out == before + stream && con.input == pending
    }

    /** The counter can count `n` more characters. */
    ghost predicate Room(n: nat)
      reads this
    {
      |stream| + n <= INT_MAX
    }

    constructor Sprintbuf(str: array<char>, ebuf: int)
      requires 0 <= ebuf < str.Length
      ensures Valid() && putch == Sprintputch && this.str == str && this.ebuf == ebuf
      ensures stream == "" && before == str[..] && con == null
    {
      putch, con, this.str, this.ebuf := Sprintputch, null, str, ebuf;
      buf, cnt, stream, before, pending := 0, 0, "", str[..], [];
    }

    constructor Counter(con: Console)
      ensures Valid() && putch == Cputch && this.con == con && str == null
      ensures stream == "" && before == con.out && pending == con.input
    {
      putch, this.con, this.str, this.ebuf := Cputch, con, null, -1;
      buf, cnt, stream, before, pending := 0, 0, "", con.out, con.input;
    }

    /** `sprintputch` or `cputch` */
    method Put(ch: char)
      requires Valid() && Room(1)
      modifies this, str, con
      ensures Valid() && stream == old(stream) + [ch]
    {
      match putch {
        case Sprintputch =>
          cnt := cnt + 1;
          if buf < ebuf {
            str[buf] := ch;
            buf := buf + 1;
          }
        case Cputch =>
          con.Putc(ch);
          cnt := cnt + 1;
      }
      stream := stream + [ch];
    }
  }
}
