/** clock.c: reading a 64-bit counter in two halves, and arming the timer. */
module Clock {
  import opened CTypes

  /** The counter's value at each successive read; it never runs backwards. */
  ghost predicate IsCounter(t: nat -> nat) {
    && (forall i: nat, j: nat :: i <= j ==> t(i) <= t(j))
    && (forall i: nat :: t(i) < TWO_64)
  }

  lemma Later(t: nat -> nat, i: nat, j: nat)
    requires IsCounter(t) && i <= j
    ensures t(i) <= t(j) < TWO_64
  {
  }

  function Hi(t: nat): nat { t / TWO_32 }

  function Lo(t: nat): nat { t % TWO_32 }

  lemma Halves(t: nat, u: nat)
    requires t <= u < TWO_64
    ensures 0 <= Hi(t) <= Hi(u) < TWO_32 && t == Hi(t) * TWO_32 + Lo(t)
    ensures u - t > (Hi(u) - Hi(t) - 1) * TWO_32
  {
  }

  /** The hi/lo/hi loop, started at read `i`, has failed `m` times: the two high halves
      it read each time differed. */
  ghost predicate Retried(t: nat -> nat, i: nat, m: nat) {
    forall k :: 0 <= k < m ==> Hi(t(i + 3 * k)) != Hi(t(i + 3 * k + 2))
  }

  lemma RetriedOnce(t: nat -> nat, i: nat, m: nat)
    requires Retried(t, i, m) && Hi(t(i + 3 * m)) != Hi(t(i + 3 * m + 2))
    ensures Retried(t, i, m + 1)
  {
  }

  lemma NotRetried(t: nat -> nat, i: nat)
    ensures Retried(t, i, 0)
  {
  }

  /** Each retry takes the counter over a boundary of the high half. */
  lemma {:induction false} RetriesAdvance(t: nat -> nat, i: nat, m: nat)
    requires IsCounter(t) && Retried(t, i, m)
    ensures m >= 1 ==> Hi(t(i + 3 * m - 1)) >= Hi(t(i)) + m
    ensures Hi(t(i + 3 * m)) >= Hi(t(i)) + m
  {
    hide IsCounter, Hi, Lo;
    if m > 0 {
      RetriesAdvance(t, i, m - 1);
      var j := i + 3 * (m - 1);
      assert Hi(t(j)) != Hi(t(j + 2));
      Later(t, j, j + 2);
      Later(t, j + 2, j + 3);
      Halves(t(j), t(j + 2));
      Halves(t(j + 2), t(j + 3));
      assert j + 2 == i + 3 * m - 1 && j + 3 == i + 3 * m;
    }
  }

  /** If at most `(n - 1) * 2^32` ticks elapse over `n` iterations, one of them succeeds. */
  lemma RetryBound(t: nat -> nat, i: nat, n: nat)
    requires IsCounter(t) && n >= 1 && t(i + 3 * n - 1) - t(i) <= (n - 1) * TWO_32
    ensures !Retried(t, i, n)
  {
    hide IsCounter, Hi, Lo;
    if Retried(t, i, n) {
      RetriesAdvance(t, i, n);
      Later(t, i, i + 3 * n - 1);
      Halves(t(i), t(i + 3 * n - 1));
      assert false;
    }
  }

  /** No loop fails more often than the high half can change. */
  lemma RetryLimit(t: nat -> nat, i: nat, m: nat)
    requires IsCounter(t) && Retried(t, i, m)
    ensures m < TWO_32
  {
    hide IsCounter, Hi, Lo;
    RetriesAdvance(t, i, m);
    Later(t, i, i + 3 * m);
    Halves(t(i), t(i + 3 * m));
  }

  /** A counter that stands one tick before a boundary, reaches it before the second high
      half is read, and then goes on from boundary to boundary, `n` of them. */
  function Climb(n: nat): nat -> nat {
    x => Max(TWO_32 - 1, Min((x + 1) / 3, n) * TWO_32)
  }

  lemma ClimbIsCounter(n: nat)
    requires n < TWO_32
    ensures IsCounter(Climb(n))
  {
    hide Climb;
    forall i: nat, j: nat | i <= j ensures Climb(n)(i) <= Climb(n)(j) < TWO_64 {
      ClimbRises(n, i, j);
    }
    assert forall i: nat :: i <= i ==> Climb(n)(i) < TWO_64;
  }

  lemma ClimbRises(n: nat, i: nat, j: nat)
    requires n < TWO_32 && i <= j
    ensures Climb(n)(i) <= Climb(n)(j) < TWO_64
  {
    var a, b := (i + 1) / 3, (j + 1) / 3;
    assert a <= b;
  }

  lemma ClimbAt(n: nat, k: nat)
    requires k < n
    ensures Climb(n)(3 * k) == Max(TWO_32 - 1, k * TWO_32) && Climb(n)(3 * k + 2) == (k + 1) * TWO_32
    ensures Hi(Climb(n)(3 * k)) == k && Hi(Climb(n)(3 * k + 2)) == k + 1
  {
    assert (3 * k + 1) / 3 == k && (3 * k + 2 + 1) / 3 == k + 1;
  }

  /** One tick more, and all `n` iterations can fail, for every number the limit allows. */
  lemma RetryBoundIsTight(n: nat)
    requires 1 <= n < TWO_32
    ensures IsCounter(Climb(n)) && Retried(Climb(n), 0, n)
    ensures Climb(n)(3 * n - 1) - Climb(n)(0) == (n - 1) * TWO_32 + 1
  {
    hide Climb, Hi;
    var t := Climb(n);
    ClimbIsCounter(n);
    ClimbAt(n, 0);
    ClimbAt(n, n - 1);
    forall k | 0 <= k < n ensures Hi(t(0 + 3 * k)) != Hi(t(0 + 3 * k + 2)) {
      ClimbAt(n, k);
    }
  }

  class Timer {
    const time: nat -> nat
    const xlen: int
    var samples: nat
    var timebase: uint64
    var armed: seq<uint64>          // the deadlines passed to sbi_set_timer

    constructor (time: nat -> nat, xlen: int)
      ensures this.time == time && this.xlen == xlen && samples == 0 && armed == []
    {
      this.time, this.xlen := time, xlen;
      samples, timebase, armed := 0, 0, [];
    }

    /** `rdtimeh`, or the upper half of `rdtime` */
    method ReadHi() returns (v: nat)
      modifies this`samples
      ensures samples == old(samples) + 1 && v == Hi(time(old(samples)))
    {
      v := Hi(time(samples));
      samples := samples + 1;
    }

    method ReadLo() returns (v: nat)
      modifies this`samples
      ensures samples == old(samples) + 1 && v == Lo(time(old(samples)))
    {
      v := Lo(time(samples));
      samples := samples + 1;
    }

    /** `get_cycles` in 32-bit code: the result is the counter's value when the last low
        half was read, and every iteration before the last one failed. */
    method GetCyclesSplit() returns (n: uint64, ghost m: nat)
      modifies this`samples
      requires IsCounter(time)
      ensures samples == old(samples) + 3 * m + 3 && n == time(samples - 2)
      ensures Retried(time, old(samples), m) && Hi(time(samples - 3)) == Hi(time(samples - 1))
    {
      hide IsCounter, Hi, Lo, Retried;
      m := 0;
      NotRetried(time, samples);
      HighHalf(samples);
      while true
        invariant samples == old(samples) + 3 * m && Retried(time, old(samples), m)
        decreases TWO_32 - Hi(time(samples))
      {
        ghost var i := samples;
        var hi := ReadHi();
        var lo := ReadLo();
        var tmp := ReadHi();
        SplitRead(i);
        if hi == tmp {
          n := hi * TWO_32 + lo;
          return;
        }
        RetriedOnce(time, old(samples), m);
        m := m + 1;
      }
    }

    lemma HighHalf(i: nat)
      requires IsCounter(time)
      ensures 0 <= Hi(time(i)) < TWO_32
    {
    }

    /** Equal high halves around a low half belong to it. */
    lemma SplitRead(i: nat)
      requires IsCounter(time)
      ensures Hi(time(i)) <= Hi(time(i + 2)) <= Hi(time(i + 3)) < TWO_32
      ensures Hi(time(i)) == Hi(time(i + 2)) ==> Hi(time(i)) * TWO_32 + Lo(time(i + 1)) == time(i + 1) < TWO_64
    {
    }

    /** `get_cycles`: the value the counter had at some moment during the call. */
    method GetCycles() returns (n: uint64, ghost at: nat)
      modifies this`samples
      requires IsCounter(time)
      ensures old(samples) <= at < samples && n == time(at)
    {
      if xlen == 64 {
        n, at := time(samples), samples;
        samples := samples + 1;
      } else {
        ghost var m;
        n, m := GetCyclesSplit();
        at := samples - 2;
      }
    }

    /** `clock_set_next_event`: one deadline, `timebase` after a moment during the call. */
    method SetNextEvent() returns (ghost at: nat)
      modifies this`samples, this`armed
      requires IsCounter(time)
      ensures old(samples) <= at < samples
      ensures armed == old(armed) + [ToUint64(time(at) + timebase)]
    {
      var n;
      n, at := GetCycles();
      armed := armed + [ToUint64(n + timebase)];
    }
  }
}
