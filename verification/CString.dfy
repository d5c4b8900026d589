/** The functions of string.c that the formatter and the monitor use. A C pointer is a
    sequence: the memory from the pointer on, holding a NUL somewhere. */
module CStrings {
  import opened CTypes

  predicate Terminated(s: string) { '\0' in s }

  /** The index of the first NUL. */
  function Length(s: string): (n: nat)
    requires Terminated(s)
    ensures n < |s| && s[n] == '\0' && forall i :: 0 <= i < n ==> s[i] != '\0'
  {
    if s[0] == '\0' then 0 else 1 + Length(s[1..])
  }

  /** The characters before the first NUL. */
  function Content(s: string): string
    requires Terminated(s)
  {
    s[..Length(s)]
  }

  /** `strnlen` looks at no character past `len` or past the NUL. */
  method Strnlen(s: string, len: uint32) returns (cnt: uint32)
    requires Terminated(s)
    ensures cnt == Min(Length(s), len)
  {
    cnt := 0;
    while cnt < len && s[cnt] != '\0'
      invariant 0 <= cnt <= Min(Length(s), len)
    {
      cnt := cnt + 1;
    }
  }

  lemma CStringLength(s: CString)
    ensures Terminated(s) && Length(s) == |s| - 1 && Content(s) == Chars(s)
  {
  }

  /** The first occurrence of `c`. Unlike ISO C it does not find the terminator. */
  method Strchr(s: string, c: char) returns (r: Option<nat>)
    requires Terminated(s)
    ensures r.Some? <==> c in Content(s)
    ensures r.Some? ==> r.value < Length(s) && s[r.value] == c && c !in s[..r.value]
  {
    var i := 0;
    while s[i] != '\0'
      invariant i <= Length(s) && c !in s[..i]
      decreases |s| - i
    {
      if s[i] == c {
        assert Content(s)[i] == c;
        return Some(i);
      }
      i := i + 1;
    }
    r := None;
  }

  /** `a` and `b` agree up to `k` and differ there, where a string that ends counts as lower. */
  predicate Below(a: string, b: string, k: nat) {
    k < |b| && k <= |a| && a[..k] == b[..k] && (k == |a| || a[k] < b[k])
  }

  /** `strcmp`: zero for equal strings, and the sign of the first difference otherwise. */
  method Strcmp(s1: string, s2: string) returns (r: int)
    requires Terminated(s1) && Terminated(s2)
    ensures r == 0 <==> Content(s1) == Content(s2)
    ensures r < 0 ==> exists k :: Below(Content(s1), Content(s2), k)
    ensures r > 0 ==> exists k :: Below(Content(s2), Content(s1), k)
    ensures exists k :: 0 <= k <= Length(s1) && k <= Length(s2) && s1[..k] == s2[..k] &&
                        r == s1[k] as int - s2[k] as int && (r == 0 ==> s1[k] == '\0')
  {
    var i := 0;
    while s1[i] != '\0' && s1[i] == s2[i]
      invariant i <= Length(s1) && i <= Length(s2) && s1[..i] == s2[..i]
      decreases |s1| - i
    {
      i := i + 1;
    }
    r := s1[i] as int - s2[i] as int;
    FirstDifference(s1, s2, i);
  }

  lemma FirstDifference(s1: string, s2: string, i: nat)
    requires Terminated(s1) && Terminated(s2) && i <= Length(s1) && i <= Length(s2) && s1[..i] == s2[..i]
    requires s1[i] == '\0' || s1[i] != s2[i]
    ensures s1[i] == s2[i] <==> Content(s1) == Content(s2)
    ensures s1[i] < s2[i] ==> Below(Content(s1), Content(s2), i)
    ensures s1[i] > s2[i] ==> Below(Content(s2), Content(s1), i)
  {
    var a, b := Content(s1), Content(s2);
    assert a[..i] == s1[..i] && b[..i] == s2[..i];
    assert i < |a| ==> a[i] == s1[i];
    assert i < |b| ==> b[i] == s2[i];
  }
}
