/** Whole traps: while `trap` runs, more traps may be taken, and more while those run. */
module NestedTraps {
  import opened CTypes
  import opened Hart
  import opened TrapEntry
  import T = Trap

  /** A stretch of C code: it leaves any registers, status and program counter behind, and
      writes any memory. */
  datatype Step = Step(x: Regs, sstatus: Word, pc: Word, writes: map<int, Word>)

  /** A trap, and what happens in `trap` until it returns. */
  datatype TrapRun = TrapRun(cause: Word, tval: Word, body: Body)

  datatype Body =
    | Return
    | Compute(step: Step, rest: Body)
    | Nested(inner: TrapRun, rest: Body)

  function ApplyStep(s: Step, m: State): State {
    m.(x := s.x, sstatus := s.sstatus, pc := s.pc, mem := m.mem + s.writes)
  }

  /** The trap is taken, and the code at the vector runs up to the first instruction of `trap`. */
  function Entry(t: TrapRun, m: State): State {
    var e := Enter(m, t.cause, t.tval);
    Run(Code(e), e)
  }

  /** The code `trap` returns to */
  function Leave(m: State): State { Run(Code(m), m) }

  function HandleTrap(t: TrapRun, m: State): State
    decreases t
  {
    Leave(RunBody(t.body, Entry(t, m)))
  }

  function RunBody(b: Body, m: State): State
    decreases b
  {
    match b
    case Return => m.(pc := m.x[RA])
    case Compute(s, rest) => RunBody(rest, ApplyStep(s, m))
    case Nested(t, rest) => RunBody(rest, HandleTrap(t, m))
  }

  /** The stack is the memory from `lo` to `hi`. A trap needs its vector set, and room for its
      frame, and `trap` keeps the calling convention: its stack pointer stays at or below the
      frame, it writes nothing on the stack above its own part, and when it returns its stack
      pointer is back at the frame and ra holds the address it was given. */
  predicate Legal(t: TrapRun, m: State, lo: int, hi: int)
    decreases t
  {
    && VectorSet(m)
    && lo <= m.x[SP] - FRAME && m.x[SP] <= hi && Aligned(m.x[SP])
    && BodyLegal(t.body, Entry(t, m), m.x[SP] - FRAME, Entry(t, m).x[RA], lo, hi)
  }

  /** The vector holds the address of `__alltraps`, which is not that of `__trapret`. */
  predicate VectorSet(m: State) { m.stvec == m.alltraps != m.trapret }

  predicate BodyLegal(b: Body, m: State, base: int, ra: Word, lo: int, hi: int)
    decreases b
  {
    match b
    case Return => m.x[SP] == base && m.x[RA] == ra
    case Compute(s, rest) =>
      && lo <= s.x[SP] <= base && Aligned(s.x[SP])
      && (forall a :: a in s.writes ==> Aligned(a) && !(base <= a < hi))
      && BodyLegal(rest, ApplyStep(s, m), base, ra, lo, hi)
    case Nested(t, rest) => Legal(t, m, lo, hi) && BodyLegal(rest, HandleTrap(t, m), base, ra, lo, hi)
  }

  /** The stack from `from` on is the same. */
  ghost predicate SameStack(mem: map<int, Word>, mem': map<int, Word>, from: int, hi: int) {
    forall a :: from <= a < hi ==> Read(mem', a) == Read(mem, a)
  }

  /** What a trap leaves behind of `sstatus`: SPIE is set and SPP cleared by `sret`, and every
      other bit is as it was. */
  function StatusAfter(w: Word): Word { With(With(w, SPIE, 1), SPP, 0) }

  /** The vector and the labels are where they were. */
  predicate SameVector(m: State, m': State) {
    m'.stvec == m.stvec && m'.alltraps == m.alltraps && m'.trap == m.trap && m'.trapret == m.trapret
  }

  /** `m'` is the interrupted context `m`, with the stack in use untouched. */
  ghost predicate Resumed(m: State, m': State, hi: int) {
    && m'.x == m.x && m'.pc == m.pc && m'.priv == m.priv
    && Bit(m'.sstatus, SIE) == Bit(m.sstatus, SIE)
    && m'.sstatus == StatusAfter(m.sstatus)
    && m'.sscratch == 0
    && SameStack(m.mem, m'.mem, m.x[SP], hi)
  }

  lemma EntryEffect(t: TrapRun, m: State)
    requires m.x[SP] >= FRAME && VectorSet(m)
    ensures var r := Entry(t, m); var base := m.x[SP] - FRAME;
      && r.x[SP] == base && r.x[A0] == base && r.sscratch == 0
      && r.pc == m.trap && r.x[RA] == m.trapret
      && r.priv == Supervisor && r.sstatus == Enter(m, t.cause, t.tval).sstatus
      && SameVector(m, r)
      && FrameHolds(r.mem, base, Enter(m, t.cause, t.tval))
      && SameOutside(m.mem, r.mem, base)
  {
    hide Run, FrameHolds, SameOutside, With;
    var e := Enter(m, t.cause, t.tval);
    SaveAllEffect(e);
    RunConcat(SAVE_ALL, [Move(A0, SP), JalTrap], e);
    RunTwo(Move(A0, SP), JalTrap, Run(SAVE_ALL, e));
  }

  /** The status that `Enter` makes is turned back by `sret`. */
  lemma StatusRoundTrip(w: Word, p: Priv)
    ensures var e := With(With(With(w, SPIE, Bit(w, SIE)), SIE, 0), SPP, PrivBit(p));
      && Bit(e, SPP) == PrivBit(p)
      && With(With(With(e, SIE, Bit(e, SPIE)), SPIE, 1), SPP, 0) == StatusAfter(w)
      && Bit(StatusAfter(w), SIE) == Bit(w, SIE)
  {
  }

  /** Bit by bit: a trap saves SIE (bit 1) in SPIE (bit 5) and clears it, notes the mode in SPP
      (bit 8), and keeps the other bits. */
  lemma EnterStatus(m: State, cause: Word, tval: Word)
    ensures var w, e := m.sstatus, Enter(m, cause, tval).sstatus;
      && e / 256 % 2 == (if m.priv == Supervisor then 1 else 0) && e / 32 % 2 == w / 2 % 2 && e / 2 % 2 == 0
      && e / 512 == w / 512 && e / 64 % 4 == w / 64 % 4 && e / 4 % 8 == w / 4 % 8 && e % 2 == w % 2
  {
    hide With;
    var w := m.sstatus;
    var a := With(w, SPIE, Bit(w, SIE));
    var b := With(a, SIE, 0);
    WithKeepsOthers(w, SPIE, Bit(w, SIE));
    WithKeepsOthers(a, SIE, 0);
    WithKeepsOthers(b, SPP, PrivBit(m.priv));
    StatusRoundTrip(w, m.priv);
    assert Bit(With(b, SPP, PrivBit(m.priv)), SPIE) == Bit(w, SIE);
    assert Bit(With(b, SPP, PrivBit(m.priv)), SIE) == 0;
  }

  /** And what is left of it afterwards. */
  lemma StatusAfterFields(w: Word)
    ensures var r := StatusAfter(w);
      && r / 256 % 2 == 0 && r / 32 % 2 == 1 && r / 2 % 2 == w / 2 % 2
      && r / 512 == w / 512 && r / 64 % 4 == w / 64 % 4 && r / 4 % 8 == w / 4 % 8 && r % 2 == w % 2
  {
    hide With;
    var a := With(w, SPIE, 1);
    WithKeepsOthers(w, SPIE, 1);
    WithKeepsOthers(a, SPP, 0);
    assert Bit(With(a, SPP, 0), SPIE) == 1 && Bit(With(a, SPP, 0), SIE) == Bit(w, SIE);
    assert Bit(With(a, SPP, 0), SPP) == 0;
  }

  /** Restoring the frame of a trap resumes the interrupted context. */
  lemma LeaveResumes(t: TrapRun, m: State, r: State, hi: int)
    requires FRAME <= m.x[SP] <= hi && r.x[SP] == m.x[SP] - FRAME && r.sscratch == 0
    requires VectorSet(r) && r.pc == r.trapret
    requires FrameHolds(r.mem, r.x[SP], Enter(m, t.cause, t.tval))
    requires SameStack(m.mem, r.mem, m.x[SP], hi)
    ensures Resumed(m, Leave(r), hi)
    ensures SameVector(r, Leave(r))
  {
    hide Run, With, Bit, At, SameStack;
    RestoreAllEffect(r);
    RunConcat(RESTORE_ALL, [Sret], r);
    RunOne(Sret, Run(RESTORE_ALL, r));
    StatusRoundTrip(m.sstatus, m.priv);
    var q := Run(RESTORE_ALL, r);
    assert q.x == m.x;
  }

  /** A frame is not changed by what leaves the stack above it alone. */
  lemma FrameKept(mem: map<int, Word>, mem': map<int, Word>, base: int, hi: int, m: State)
    requires FrameHolds(mem, base, m) && SameStack(mem, mem', base, hi) && base + FRAME <= hi
    ensures FrameHolds(mem', base, m)
  {
  }

  /** Every trap, with traps nested in it to any depth, resumes exactly the context it
      interrupted. */
  lemma {:induction false} TrapIsTransparent(t: TrapRun, m: State, lo: int, hi: int)
    requires Legal(t, m, lo, hi) && 0 <= lo && hi <= TWO_32
    ensures Resumed(m, HandleTrap(t, m), hi)
    ensures SameVector(m, HandleTrap(t, m))
    decreases t
  {
    hide Leave, Entry, Resumed, FrameHolds, Run;
    var base := m.x[SP] - FRAME;
    EntryEffect(t, m);
    var r := Entry(t, m);
    BodyKeepsFrame(t.body, r, base, r.x[RA], lo, hi);
    var q := RunBody(t.body, r);
    FrameKept(r.mem, q.mem, base, hi, Enter(m, t.cause, t.tval));
    assert SameStack(m.mem, q.mem, m.x[SP], hi);
    LeaveResumes(t, m, q, hi);
  }

  /** While `trap` runs, its frame and everything above it on the stack stay as they are. */
  lemma {:induction false} BodyKeepsFrame(b: Body, m: State, base: int, ra: Word, lo: int, hi: int)
    requires BodyLegal(b, m, base, ra, lo, hi) && 0 <= lo && hi <= TWO_32
    requires m.x[SP] <= base && m.sscratch == 0
    ensures var r := RunBody(b, m);
      && r.x[SP] == base && r.pc == ra && r.sscratch == 0 && SameStack(m.mem, r.mem, base, hi)
      && SameVector(m, r)
    decreases b
  {
    hide HandleTrap, With, Bit;
    match b
    case Return =>
    case Compute(s, rest) =>
      BodyKeepsFrame(rest, ApplyStep(s, m), base, ra, lo, hi);
    case Nested(t, rest) =>
      TrapIsTransparent(t, m, lo, hi);
      BodyKeepsFrame(rest, HandleTrap(t, m), base, ra, lo, hi);
  }

  // ------------------------------------------------------------ what trap sees

  /** The fields of the frame at `base` as `trap` reads them. */
  function FrameFields(mem: map<int, Word>, base: int): T.Trapframe {
    T.Trapframe(seq(32, k requires 0 <= k < 32 => At(mem, base, k)),
                At(mem, base, 32), At(mem, base, 33), At(mem, base, 34), At(mem, base, 35))
  }

  /** `trap` is given the registers it interrupted and the cause, the value and the program
      counter of its own trap, and `trap_in_kernel` tells the mode it interrupted. */
  lemma TrapframeSeen(t: TrapRun, m: State)
    requires m.x[SP] >= 144 && VectorSet(m)
    ensures var r := Entry(t, m); var tf := FrameFields(r.mem, r.x[10]);
      && r.pc == m.trap && r.x[1] == m.trapret && r.x[2] == r.x[10] == m.x[2] - 144
      && r.priv == Supervisor && r.sscratch == 0 && r.sstatus / 2 % 2 == 0
      && (forall k: Reg :: Read(r.mem, r.x[10] + 4 * k) == m.x[k])
      && Read(r.mem, r.x[10] + 132) == m.pc && Read(r.mem, r.x[10] + 136) == t.tval
      && Read(r.mem, r.x[10] + 140) == t.cause
      && Read(r.mem, r.x[10] + 128) == Enter(m, t.cause, t.tval).sstatus
      && tf.gpr == m.x && tf.cause == t.cause && tf.badvaddr == t.tval && tf.epc == m.pc
      && (T.InKernel(tf) <==> m.priv == Supervisor)
  {
    hide Entry, With, Read;
    EntryEffect(t, m);
    EnterStatus(m, t.cause, t.tval);
    assert Bit(Enter(m, t.cause, t.tval).sstatus, SPP) == PrivBit(m.priv);
  }

  // ------------------------------------------------------------------- frames

  /** Where the frames of a trap and of all traps inside it are. */
  function Frames(t: TrapRun, m: State): seq<int>
    decreases t
  {
    [m.x[SP] - FRAME] + BodyFrames(t.body, Entry(t, m))
  }

  function BodyFrames(b: Body, m: State): seq<int>
    decreases b
  {
    match b
    case Return => []
    case Compute(s, rest) => BodyFrames(rest, ApplyStep(s, m))
    case Nested(t, rest) => Frames(t, m) + BodyFrames(rest, HandleTrap(t, m))
  }

  ghost predicate FramesIn(frames: seq<int>, lo: int, top: int) {
    forall f :: f in frames ==> lo <= f && f + FRAME <= top
  }

  /** All frames of a trap are on the stack below the interrupted stack pointer. */
  lemma {:induction false} FramesBelow(t: TrapRun, m: State, lo: int, hi: int)
    requires Legal(t, m, lo, hi) && 0 <= lo && hi <= TWO_32
    ensures FramesIn(Frames(t, m), lo, m.x[SP])
    decreases t
  {
    hide Entry;
    EntryEffect(t, m);
    InnerFramesBelow(t.body, Entry(t, m), m.x[SP] - FRAME, Entry(t, m).x[RA], lo, hi);
  }

  /** The frames of the traps inside a trap lie below its own frame: none overlaps it. */
  lemma {:induction false} InnerFramesBelow(b: Body, m: State, base: int, ra: Word, lo: int, hi: int)
    requires BodyLegal(b, m, base, ra, lo, hi) && 0 <= lo && hi <= TWO_32
    requires m.x[SP] <= base && m.sscratch == 0
    ensures FramesIn(BodyFrames(b, m), lo, base)
    decreases b
  {
    hide HandleTrap, Frames;
    match b
    case Return =>
    case Compute(s, rest) =>
      InnerFramesBelow(rest, ApplyStep(s, m), base, ra, lo, hi);
    case Nested(t, rest) =>
      FramesBelow(t, m, lo, hi);
      TrapIsTransparent(t, m, lo, hi);
      InnerFramesBelow(rest, HandleTrap(t, m), base, ra, lo, hi);
  }

  /** `n` more traps, each taken at once while the one before it runs */
  function Chain(n: nat): TrapRun {
    TrapRun(0, 0, if n == 0 then Return else Nested(Chain(n - 1), Return))
  }

  /** Nesting `n` deep takes exactly `n + 1` frames of stack. */
  lemma {:induction false} ChainNeedsFrames(n: nat, m: State, lo: int, hi: int)
    requires 0 <= lo && hi <= TWO_32
    ensures Legal(Chain(n), m, lo, hi) <==>
            VectorSet(m) && lo + (n + 1) * 144 <= m.x[SP] <= hi && Aligned(m.x[SP])
    decreases n
  {
    hide Entry, HandleTrap, FrameHolds, SameOutside, With, SameStack;
    var t := Chain(n);
    if VectorSet(m) && lo <= m.x[SP] - FRAME && m.x[SP] <= hi && Aligned(m.x[SP]) {
      EntryEffect(t, m);
      var r := Entry(t, m);
      if n > 0 {
        ChainNeedsFrames(n - 1, r, lo, hi);
        var inner := Chain(n - 1);
        if Legal(inner, r, lo, hi) {
          TrapIsTransparent(inner, r, lo, hi);
          assert BodyLegal(Return, HandleTrap(inner, r), r.x[SP], r.x[RA], lo, hi);
        }
        assert t.body == Nested(inner, Return);
        assert BodyLegal(t.body, r, r.x[SP], r.x[RA], lo, hi) <==> Legal(inner, r, lo, hi);
      }
    }
  }

  // ----------------------------------------------------------------- sscratch

  /** `sscratch` is 0 at every moment while `trap` runs, in this trap and in all inside it. */
  ghost predicate Quiet(b: Body, m: State)
    decreases b
  {
    m.sscratch == 0 &&
    match b
    case Return => true
    case Compute(s, rest) => Quiet(rest, ApplyStep(s, m))
    case Nested(t, rest) => Quiet(t.body, Entry(t, m)) && Quiet(rest, HandleTrap(t, m))
  }

  lemma {:induction false} AlwaysQuiet(b: Body, m: State, base: int, ra: Word, lo: int, hi: int)
    requires BodyLegal(b, m, base, ra, lo, hi) && 0 <= lo && hi <= TWO_32
    requires m.x[SP] <= base && m.sscratch == 0
    ensures Quiet(b, m)
    decreases b
  {
    hide HandleTrap, Entry;
    match b
    case Return =>
    case Compute(s, rest) =>
      AlwaysQuiet(rest, ApplyStep(s, m), base, ra, lo, hi);
    case Nested(t, rest) =>
      EntryEffect(t, m);
      AlwaysQuiet(t.body, Entry(t, m), m.x[SP] - FRAME, Entry(t, m).x[RA], lo, hi);
      TrapIsTransparent(t, m, lo, hi);
      AlwaysQuiet(rest, HandleTrap(t, m), base, ra, lo, hi);
  }

  // --------------------------------------------------------------- the machine

  /** The hart, whose registers and memory the instructions update. */
  class Machine {
    var x: Regs
    var mem: map<int, Word>
    var sscratch: Word
    var sstatus: Word
    var sepc: Word
    var sbadaddr: Word
    var scause: Word
    var stvec: Word
    var pc: Word
    var priv: Priv
    const alltraps: Word
    const trap: Word
    const trapret: Word

    function Abs(): State
      reads this
    {
      State(x, mem, sscratch, sstatus, sepc, sbadaddr, scause, stvec, pc, priv, alltraps, trap, trapret)
    }

    constructor (alltraps: Word, trap: Word, trapret: Word)
      ensures this.alltraps == alltraps && this.trap == trap && this.trapret == trapret
    {
      x, mem := seq(32, _ => 0), map[];
      sscratch, sstatus, sepc, sbadaddr, scause := 0, 0, 0, 0, 0;
      stvec, pc, priv := 0, 0, Supervisor;
      this.alltraps, this.trap, this.trapret := alltraps, trap, trapret;
    }

    /** `idt_init`: a trap then enters at `__alltraps`. */
    method IdtInit()
      modifies this`sscratch, this`stvec
      ensures Abs() == old(Abs()).(sscratch := 0, stvec := alltraps)
    {
      sscratch := 0;
      stvec := alltraps;
    }

    method WriteReg(r: Reg, v: Word)
      modifies this`x
      ensures x == SetReg(old(x), r, v)
    {
      if r != ZERO {
        x := x[r := v];
      }
    }

    method WriteCsr(c: Csr, v: Word)
      modifies this`sscratch, this`sstatus, this`sepc, this`sbadaddr, this`scause
      ensures Abs() == SetCsr(old(Abs()), c, v)
    {
      match c {
        case Sscratch => sscratch := v;
        case Sstatus => sstatus := v;
        case Sepc => sepc := v;
        case Sbadaddr => sbadaddr := v;
        case Scause => scause := v;
      }
    }

    /** One instruction. */
    method Step(i: Instr)
      modifies this
      ensures Abs() == Exec(i, old(Abs()))
    {
      match i {
        case Csrw(c, rs) => WriteCsr(c, x[rs]);
        case Csrrw(rd, c, rs) =>
          var v := GetCsr(Abs(), c);
          WriteCsr(c, x[rs]);
          WriteReg(rd, v);
        case Csrr(rd, c) => WriteReg(rd, GetCsr(Abs(), c));
        case Addi(rd, rs, imm) => WriteReg(rd, ToUint32(x[rs] + imm));
        case Move(rd, rs) => WriteReg(rd, x[rs]);
        case JalTrap =>
          WriteReg(RA, trapret);
          pc := trap;
        case Sret => ReturnFromTrap();
        case Store(rs, k) => mem := mem[ToUint32(x[SP] + k * REGBYTES) := x[rs]];
        case Load(rd, k) => WriteReg(rd, Read(mem, ToUint32(x[SP] + k * REGBYTES)));
      }
    }

    /** A sequence of instructions. */
    method RunProgram(p: seq<Instr>)
      modifies this
      ensures Abs() == Run(p, old(Abs()))
    {
      hide Exec, Run;
      var i := 0;
      assert p[0..] == p;
      while i < |p|
        invariant i <= |p| && Run(p[i..], Abs()) == Run(p, old(Abs()))
      {
        RunCons(p[i..], Abs());
        assert p[i..][0] == p[i] && p[i..][1..] == p[i + 1..];
        Step(p[i]);
        i := i + 1;
      }
      assert p[i..] == [];
      RunNothing(Abs());
    }

    lemma RunNothing(m: State)
      ensures Run([], m) == m
    {
    }

    method TakeTrap(cause: Word, tval: Word)
      modifies this
      ensures Abs() == Enter(old(Abs()), cause, tval)
    {
      sepc, scause, sbadaddr := pc, cause, tval;
      sstatus := With(With(With(sstatus, SPIE, Bit(sstatus, SIE)), SIE, 0), SPP, PrivBit(priv));
      pc, priv := stvec, Supervisor;
    }

    method ReturnFromTrap()
      modifies this
      ensures Abs() == AfterSret(old(Abs()))
    {
      pc, priv := sepc, if Bit(sstatus, SPP) == 1 then Supervisor else User;
      sstatus := With(With(With(sstatus, SIE, Bit(sstatus, SPIE)), SPIE, 1), SPP, 0);
    }

    /** `__alltraps` and `__trapret`: the interrupted context is resumed. */
    method Handle(t: TrapRun, ghost lo: int, ghost hi: int)
      requires Legal(t, Abs(), lo, hi) && 0 <= lo && hi <= TWO_32
      modifies this
      ensures Abs() == HandleTrap(t, old(Abs()))
      ensures Resumed(old(Abs()), Abs(), hi)
      decreases t
    {
      hide Run, Resumed, With, Bit;
      ghost var m := Abs();
      TrapIsTransparent(t, m, lo, hi);
      TakeTrap(t.cause, t.tval);
      RunProgram(Code(Abs()));
      RunTrap(t.body, m.x[SP] - FRAME, x[RA], lo, hi);
      RunProgram(Code(Abs()));
    }

    /** `trap`, with the traps taken while it runs. */
    method RunTrap(b: Body, ghost base: int, ghost ra: Word, ghost lo: int, ghost hi: int)
      requires BodyLegal(b, Abs(), base, ra, lo, hi) && 0 <= lo && hi <= TWO_32
      modifies this
      ensures Abs() == RunBody(b, old(Abs()))
      decreases b
    {
      hide HandleTrap, Resumed;
      match b {
        case Return => pc := x[RA];
        case Compute(s, rest) =>
          x, sstatus, pc, mem := s.x, s.sstatus, s.pc, mem + s.writes;
          RunTrap(rest, base, ra, lo, hi);
        case Nested(t, rest) =>
          Handle(t, lo, hi);
          RunTrap(rest, base, ra, lo, hi);
      }
    }
  }
}
