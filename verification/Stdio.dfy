/** stdio.c: formatted output to the console. */
module Stdio {
  import opened CTypes
  import opened Format
  import opened Sinks
  import opened Printf

  /** `vcprintf`: the whole rendering reaches the console, and its length is returned. */
  method Vcprintf(con: Console, fmt: CString, ap: seq<Arg>) returns (cnt: int32)
    requires Render(Chars(fmt), ap).Rendered? && |Render(Chars(fmt), ap).text| <= INT_MAX
    modifies con
    ensures con.out == old(con.out) + Render(Chars(fmt), ap).text && con.input == old(con.input)
    ensures cnt == |Render(Chars(fmt), ap).text|
  {
    hide Render;
    var counter := new Sink.Counter(con);
    Vprintfmt(counter, fmt, ap);
    cnt := counter.cnt;
  }

  /** `getchar` on the input that has arrived: the next byte that is not zero, if any, and how
      many zeros were before it. */
  method Getchar(con: Console) returns (c: Option<int>, ghost z: nat)
    modifies con`input
    ensures NextByte(old(con.input)).0 == c && NextByte(old(con.input)).1 == con.input
    ensures z <= |old(con.input)| && forall i :: 0 <= i < z ==> old(con.input)[i] == 0
    ensures z < |old(con.input)| ==>
      old(con.input)[z] != 0 && c == Some(old(con.input)[z]) && con.input == old(con.input)[z + 1..]
    ensures z == |old(con.input)| ==> c == None && con.input == []
  {
    z := 0;
    while con.input != []
      invariant NextByte(old(con.input)) == NextByte(con.input)
      invariant z <= |old(con.input)| && con.input == old(con.input)[z..]
      invariant forall i :: 0 <= i < z ==> old(con.input)[i] == 0
      decreases |con.input|
    {
      var b := con.input[0];
      con.input := con.input[1..];
      if b != 0 {
        c := Some(b);
        return;
      }
      z := z + 1;
    }
    c := None;
  }

  /** Any number of zeros is skipped; a negative code is delivered like a byte. */
  lemma {:induction false} NextAfterZeros(z: nat, tail: seq<int>)
    requires tail != [] ==> tail[0] != 0
    ensures NextByte(seq(z, _ => 0) + tail) == if tail == [] then (None, []) else (Some(tail[0]), tail[1..])
  {
    var input := seq(z, _ => 0) + tail;
    if z == 0 {
      assert input == tail;
    } else {
      assert input[1..] == seq(z - 1, _ => 0) + tail;
      NextAfterZeros(z - 1, tail);
    }
  }

  /** Zero is the console's way of saying that no byte is waiting. */
  function NextByte(input: seq<int>): (r: (Option<int>, seq<int>))
    ensures |r.1| <= |input| && (if r.0.Some? then |r.1| < |input| else r.1 == [])
  {
    if input == [] then (None, [])
    else if input[0] == 0 then NextByte(input[1..])
    else (Some(input[0]), input[1..])
  }
}
