/** memmove and memcpy on one array, with pointers as indices into it. */
module Memory {
  /** The cells from `dst` on hold what the cells from `src` on held. */
  function Moved(m: string, dst: nat, src: nat, n: nat): string
    requires dst + n <= |m| && src + n <= |m|
  {
    m[..dst] + m[src..src + n] + m[dst + n..]
  }

  /** Where a forward copy takes its `k`-th character from: a copy to a later place that
      overlaps repeats the characters between the two places. */
  function SourceOf(dst: nat, src: nat, k: nat): (x: nat)
    ensures src <= x <= src + k
  {
    if src < dst && k >= dst - src then SourceOf(dst, src, k - (dst - src)) else src + k
  }

  /** The array after a forward copy. */
  ghost predicate CopiedForward(m: string, r: string, dst: nat, src: nat, n: nat)
    requires dst + n <= |m| && src + n <= |m|
  {
    && |r| == |m|
    && (forall x :: dst <= x < dst + n ==> r[x] == m[SourceOf(dst, src, x - dst)])
    && (forall x :: 0 <= x < |m| && !(dst <= x < dst + n) ==> r[x] == m[x])
  }

  lemma CopyStep(m: string, r: string, dst: nat, src: nat, k: nat)
    requires dst + k < |m| && src + k < |m| && CopiedForward(m, r, dst, src, k)
    ensures CopiedForward(m, r[dst + k := r[src + k]], dst, src, k + 1)
  {
  }

  /** A forward copy to a later place reads what it has written itself. */
  lemma ForwardCells(m: string, r: string, dst: nat, src: nat, n: nat)
    requires dst + n <= |m| && src + n <= |m| && CopiedForward(m, r, dst, src, n)
    ensures forall x :: dst <= x < dst + n ==> r[x] == if src < dst then r[src + (x - dst)] else m[src + (x - dst)]
    ensures forall x :: 0 <= x < |m| && !(dst <= x < dst + n) ==> r[x] == m[x]
  {
    forall x | dst <= x < dst + n ensures r[x] == if src < dst then r[src + (x - dst)] else m[src + (x - dst)] {
      var k := x - dst;
      assert r[x] == m[SourceOf(dst, src, k)];
      if src < dst && k >= dst - src {
        assert r[src + k] == m[SourceOf(dst, src, k - (dst - src))];
      }
    }
  }

  /** `memcpy`, and the forward loop of `memmove` */
  method Memcpy(mem: array<char>, dst: nat, src: nat, n: nat)
    requires dst + n <= mem.Length && src + n <= mem.Length
    modifies mem
    ensures CopiedForward(old(mem[..]), mem[..], dst, src, n)
    ensures forall x :: dst <= x < dst + n ==>
      mem[x] == if src < dst then mem[src + (x - dst)] else old(mem[src + (x - dst)])
    ensures forall x :: 0 <= x < mem.Length && !(dst <= x < dst + n) ==> mem[x] == old(mem[x])
  {
    var d, s, left := dst, src, n;
    while left > 0
      invariant 0 <= left <= n && d == dst + (n - left) && s == src + (n - left)
      invariant CopiedForward(old(mem[..]), mem[..], dst, src, n - left)
    {
      CopyStep(old(mem[..]), mem[..], dst, src, n - left);
      ghost var before := mem[..];
      mem[d] := mem[s];
      assert mem[..] == before[d := before[s]];
      left, d, s := left - 1, d + 1, s + 1;
    }
    ForwardCells(old(mem[..]), mem[..], dst, src, n);
    assert forall x :: 0 <= x < mem.Length ==> mem[x] == mem[..][x];
  }

  /** `memmove` copies backwards when the destination starts inside the source. */
  method Memmove(mem: array<char>, dst: nat, src: nat, n: nat)
    requires dst + n <= mem.Length && src + n <= mem.Length
    modifies mem
    ensures mem[..] == Moved(old(mem[..]), dst, src, n)
    ensures forall x :: dst <= x < dst + n ==> mem[x] == old(mem[src + (x - dst)])
    ensures forall x :: 0 <= x < mem.Length && !(dst <= x < dst + n) ==> mem[x] == old(mem[x])
  {
    var s, d, left := src, dst, n;
    if s < d && s + n > d {
      s, d := s + n, d + n;
      while left > 0
        invariant 0 <= left <= n && s == src + left && d == dst + left
        invariant forall x :: d <= x < dst + n ==> mem[x] == old(mem[src + (x - dst)])
        invariant forall x :: 0 <= x < mem.Length && !(d <= x < dst + n) ==> mem[x] == old(mem[x])
      {
        left := left - 1;
        d, s := d - 1, s - 1;
        mem[d] := mem[s];
      }
    } else {
      Memcpy(mem, dst, src, n);
      CopyOrMove(old(mem[..]), mem[..], dst, src, n);
    }
  }

  /** The characters from `src` on repeat with the distance of the two places as period. */
  predicate Periodic(m: string, dst: nat, src: nat, n: nat)
    requires dst + n <= |m| && src + n <= |m|
  {
    src < dst && forall x :: dst <= x < src + n ==> m[x] == m[x - (dst - src)]
  }

  /** A forward copy moves the characters exactly if the destination does not start inside
      the source, or the source is periodic so that it does not matter. */
  lemma CopyOrMove(m: string, r: string, dst: nat, src: nat, n: nat)
    requires dst + n <= |m| && src + n <= |m| && CopiedForward(m, r, dst, src, n)
    ensures r == Moved(m, dst, src, n) <==> dst <= src || src + n <= dst || Periodic(m, dst, src, n)
  {
    hide Moved, CopiedForward, Periodic;
    if dst <= src || src + n <= dst {
      CopyIsMove(m, r, dst, src, n);
    } else if Periodic(m, dst, src, n) {
      CopyIsMove(m, r, dst, src, n);
    } else if r == Moved(m, dst, src, n) {
      MoveIsPeriodic(m, r, dst, src, n);
    }
  }

  lemma CopiedAt(m: string, r: string, dst: nat, src: nat, n: nat, x: nat)
    requires dst + n <= |m| && src + n <= |m| && CopiedForward(m, r, dst, src, n) && x < |m|
    ensures |r| == |m| && r[x] == if dst <= x < dst + n then m[SourceOf(dst, src, x - dst)] else m[x]
  {
  }

  lemma MovedAt(m: string, dst: nat, src: nat, n: nat, x: nat)
    requires dst + n <= |m| && src + n <= |m| && x < |m|
    ensures |Moved(m, dst, src, n)| == |m|
    ensures Moved(m, dst, src, n)[x] == if dst <= x < dst + n then m[src + (x - dst)] else m[x]
  {
  }

  lemma CopyIsMove(m: string, r: string, dst: nat, src: nat, n: nat)
    requires dst + n <= |m| && src + n <= |m| && CopiedForward(m, r, dst, src, n)
    requires dst <= src || src + n <= dst || Periodic(m, dst, src, n)
    ensures r == Moved(m, dst, src, n)
  {
    hide Moved, CopiedForward, Periodic;
    assert |r| == |Moved(m, dst, src, n)| == |m| by { SameLength(m, r, dst, src, n); }
    forall x | 0 <= x < |m| ensures r[x] == Moved(m, dst, src, n)[x] {
      CellIsMoved(m, r, dst, src, n, x);
    }
  }

  lemma SameLength(m: string, r: string, dst: nat, src: nat, n: nat)
    requires dst + n <= |m| && src + n <= |m| && CopiedForward(m, r, dst, src, n)
    ensures |r| == |Moved(m, dst, src, n)| == |m|
  {
  }

  lemma CellIsMoved(m: string, r: string, dst: nat, src: nat, n: nat, x: nat)
    requires dst + n <= |m| && src + n <= |m| && CopiedForward(m, r, dst, src, n) && x < |m|
    requires dst <= src || src + n <= dst || Periodic(m, dst, src, n)
    ensures |r| == |Moved(m, dst, src, n)| == |m| && r[x] == Moved(m, dst, src, n)[x]
  {
    hide Moved, CopiedForward, SourceOf, Periodic;
    CopiedAt(m, r, dst, src, n, x);
    MovedAt(m, dst, src, n, x);
    if dst <= x < dst + n {
      SourceIsSame(m, dst, src, n, x - dst);
    }
  }

  lemma SourceIsSame(m: string, dst: nat, src: nat, n: nat, k: nat)
    requires dst + n <= |m| && src + n <= |m| && k < n
    requires dst <= src || src + n <= dst || Periodic(m, dst, src, n)
    ensures m[SourceOf(dst, src, k)] == m[src + k]
  {
    if src < dst < src + n {
      PeriodicSource(m, dst, src, n, k);
    }
  }

  lemma MoveIsPeriodic(m: string, r: string, dst: nat, src: nat, n: nat)
    requires src < dst && dst + n <= |m| && CopiedForward(m, r, dst, src, n) && r == Moved(m, dst, src, n)
    ensures Periodic(m, dst, src, n)
  {
    hide Moved, CopiedForward, SourceOf;
    forall x | dst <= x < src + n ensures m[x] == m[x - (dst - src)] {
      RepeatedSource(m, r, dst, src, n, x - src);
    }
  }

  lemma {:induction false} PeriodicSource(m: string, dst: nat, src: nat, n: nat, k: nat)
    requires dst + n <= |m| && src + n <= |m| && k < n && Periodic(m, dst, src, n)
    ensures m[SourceOf(dst, src, k)] == m[src + k]
    decreases k
  {
    if k >= dst - src {
      PeriodicSource(m, dst, src, n, k - (dst - src));
    }
  }

  lemma RepeatedSource(m: string, r: string, dst: nat, src: nat, n: nat, k: nat)
    requires src < dst && dst + n <= |m| && src + n <= |m| && dst - src <= k < n
    requires CopiedForward(m, r, dst, src, n) && r == Moved(m, dst, src, n)
    ensures m[src + k] == m[src + k - (dst - src)]
  {
    hide Moved, CopiedForward;
    var j := k - (dst - src);
    MovedAt(m, dst, src, n, dst + k);
    MovedAt(m, dst, src, n, dst + j);
    CopiedAt(m, r, dst, src, n, dst + k);
    CopiedAt(m, r, dst, src, n, dst + j);
    assert SourceOf(dst, src, k) == SourceOf(dst, src, j);
  }
}
