/** The save and restore sequences, and whole traps with other traps nested in them. */
module TrapEntry {
  import opened CTypes
  import opened Hart

  // ------------------------------------------------------- runs of programs

  lemma {:induction false} RunConcat(p: seq<Instr>, q: seq<Instr>, m: State)
    ensures Run(p + q, m) == Run(q, Run(p, m))
  {
    if p == [] {
      assert p + q == q;
    } else {
      assert (p + q)[1..] == p[1..] + q;
      RunConcat(p[1..], q, Exec(p[0], m));
    }
  }

  /** Word `k` of the frame at `base`. */
  function At(mem: map<int, Word>, base: int, k: int): Word { Read(mem, base + k * REGBYTES) }

  predicate HasRoom(m: State) { m.x[SP] + FRAME <= TWO_32 }

  /** One store changes one slot. */
  lemma StoreStep(r: Reg, k: Slot, m: State)
    requires HasRoom(m)
    ensures var m1 := Exec(Store(r, k), m);
      && m1 == m.(mem := m1.mem)
      && (forall j: Slot :: At(m1.mem, m.x[SP], j) == if j == k then m.x[r] else At(m.mem, m.x[SP], j))
      && SameOutside(m.mem, m1.mem, m.x[SP])
  {
  }

  /** The memory is the same but for the frame at `base`. */
  ghost predicate SameOutside(mem: map<int, Word>, mem': map<int, Word>, base: int) {
    forall a :: !(base <= a < base + FRAME) ==> Read(mem', a) == Read(mem, a)
  }

  /** Stores of registers into their own slots. */
  lemma {:induction false} RunStores(p: seq<Instr>, m: State)
    requires HasRoom(m)
    requires OwnStores(p)
    ensures var r := Run(p, m);
      && r == m.(mem := r.mem)
      && (forall k: Slot :: At(r.mem, m.x[SP], k) ==
            if k < 32 && Store(k, k) in p then m.x[k] else At(m.mem, m.x[SP], k))
      && SameOutside(m.mem, r.mem, m.x[SP])
  {
    hide At, Exec;
    if p != [] {
      var s, rest := p[0].rs, p[1..];
      assert p == [Store(s, s)] + rest;
      StoreStep(s, s, m);
      RunStores(rest, Exec(p[0], m));
      assert forall k: Slot :: k < 32 ==> (Store(k, k) in p <==> k == s || Store(k, k) in rest);
    }
  }

  /** Loads of registers other than the stack pointer from their own slots. */
  lemma {:induction false} RunLoads(p: seq<Instr>, m: State)
    requires HasRoom(m)
    requires OwnLoads(p)
    ensures var r := Run(p, m);
      && r == m.(x := r.x)
      && forall k: Reg :: r.x[k] == if Load(k, k) in p then At(m.mem, m.x[SP], k) else m.x[k]
  {
    if p != [] {
      var s := p[0].rd;
      var m1 := Exec(p[0], m);
      assert p[0] == Load(s, s);
      RunLoads(p[1..], m1);
      assert forall k: Reg :: Load(k, k) in p <==> k == s || Load(k, k) in p[1..];
    }
  }

  predicate OwnStores(p: seq<Instr>) {
    forall i :: 0 <= i < |p| ==> p[i].Store? && p[i].slot == p[i].rs && p[i].rs != SP
  }

  predicate OwnLoads(p: seq<Instr>) {
    forall i :: 0 <= i < |p| ==> p[i].Load? && p[i].slot == p[i].rd && p[i].rd != SP && p[i].rd != ZERO
  }

  /** `SAVE_ALL` stores every register but the stack pointer in its own slot. */
  lemma SavedRegs()
    ensures OwnStores(SAVE_REGS) && forall k: Reg :: Store(k, k) in SAVE_REGS <==> k != SP
  {
  }

  /** `RESTORE_ALL` loads every register but x0 and, until last, the stack pointer. */
  lemma RestoredRegs()
    ensures OwnLoads(RESTORE_REGS) && forall k: Reg :: Load(k, k) in RESTORE_REGS <==> k != SP && k != ZERO
  {
  }

  // --------------------------------------------- SAVE_ALL and RESTORE_ALL

  /** The frame at `base` holds the registers and CSRs of `m`: it is the `struct trapframe`
      that `trap` gets. */
  ghost predicate FrameHolds(mem: map<int, Word>, base: int, m: State) {
    && (forall k: Reg :: At(mem, base, k) == m.x[k])
    && At(mem, base, 32) == m.sstatus
    && At(mem, base, 33) == m.sepc
    && At(mem, base, 34) == m.sbadaddr
    && At(mem, base, 35) == m.scause
  }

  lemma RunCons(p: seq<Instr>, m: State)
    requires p != []
    ensures Run(p, m) == Run(p[1..], Exec(p[0], m))
  {
  }

  lemma RunOne(a: Instr, m: State)
    ensures Run([a], m) == Exec(a, m)
  {
  }

  lemma RunTwo(a: Instr, b: Instr, m: State)
    ensures Run([a, b], m) == Exec(b, Exec(a, m))
  {
    hide Exec, Run;
    RunCons([a, b], m);
    assert [a, b][1..] == [b];
    RunOne(b, Exec(a, m));
  }

  lemma RunFour(a: Instr, b: Instr, c: Instr, d: Instr, m: State)
    ensures Run([a, b, c, d], m) == Exec(d, Exec(c, Exec(b, Exec(a, m))))
  {
    hide Exec, Run;
    RunConcat([a, b], [c, d], m);
    assert [a, b] + [c, d] == [a, b, c, d];
    RunTwo(a, b, m);
    RunTwo(c, d, Exec(b, Exec(a, m)));
  }

  lemma RunFive(a: Instr, b: Instr, c: Instr, d: Instr, e: Instr, m: State)
    ensures Run([a, b, c, d, e], m) == Exec(e, Exec(d, Exec(c, Exec(b, Exec(a, m)))))
  {
    hide Exec, Run;
    RunConcat([a, b, c, d], [e], m);
    assert [a, b, c, d] + [e] == [a, b, c, d, e];
    RunFour(a, b, c, d, m);
    RunOne(e, Run([a, b, c, d], m));
  }

  const READ_CSRS := [
    Csrrw(S0, Sscratch, ZERO), Csrr(S1, Sstatus), Csrr(S2, Sepc), Csrr(S3, Sbadaddr), Csrr(S4, Scause)]
  const STORE_CSRS := [Store(S0, 2), Store(S1, 32), Store(S2, 33), Store(S3, 34), Store(S4, 35)]

  lemma LoadStep(rd: Reg, k: Slot, m: State)
    requires HasRoom(m) && rd != ZERO
    ensures Exec(Load(rd, k), m) == m.(x := m.x[rd := At(m.mem, m.x[SP], k)])
  {
    hide Read, SlotAddress;
    SlotIs(m, k);
  }

  lemma CsrrStep(rd: Reg, c: Csr, m: State)
    requires rd != ZERO
    ensures Exec(Csrr(rd, c), m) == m.(x := m.x[rd := GetCsr(m, c)])
  {
  }

  lemma TakeScratch(m: State)
    ensures Exec(Csrrw(S0, Sscratch, ZERO), m) == m.(sscratch := 0, x := m.x[S0 := m.sscratch])
  {
  }

  lemma ReadCsrs(m: State)
    ensures var r := Run(READ_CSRS, m);
      && r == m.(x := r.x, sscratch := 0) && r.x[SP] == m.x[SP]
      && r.x[S0] == m.sscratch && r.x[S1] == m.sstatus && r.x[S2] == m.sepc
      && r.x[S3] == m.sbadaddr && r.x[S4] == m.scause
  {
    hide Exec, Run;
    RunFive(Csrrw(S0, Sscratch, ZERO), Csrr(S1, Sstatus), Csrr(S2, Sepc), Csrr(S3, Sbadaddr), Csrr(S4, Scause), m);
    TakeScratch(m);
    var m1 := m.(sscratch := 0, x := m.x[S0 := m.sscratch]);
    CsrrStep(S1, Sstatus, m1);
    var m2 := m1.(x := m1.x[S1 := m.sstatus]);
    CsrrStep(S2, Sepc, m2);
    var m3 := m2.(x := m2.x[S2 := m.sepc]);
    CsrrStep(S3, Sbadaddr, m3);
    CsrrStep(S4, Scause, m3.(x := m3.x[S3 := m.sbadaddr]));
  }

  lemma StoreCsrs(m: State)
    requires HasRoom(m)
    ensures var r := Run(STORE_CSRS, m); var base := m.x[SP];
      && r == m.(mem := r.mem) && SameOutside(m.mem, r.mem, base)
      && (forall k: Slot :: k != 2 && k < 32 ==> At(r.mem, base, k) == At(m.mem, base, k))
      && At(r.mem, base, 2) == m.x[S0] && At(r.mem, base, 32) == m.x[S1] && At(r.mem, base, 33) == m.x[S2]
      && At(r.mem, base, 34) == m.x[S3] && At(r.mem, base, 35) == m.x[S4]
  {
    hide At, Exec, Run;
    RunFive(Store(S0, 2), Store(S1, 32), Store(S2, 33), Store(S3, 34), Store(S4, 35), m);
    var m1 := Exec(Store(S0, 2), m);
    var m2 := Exec(Store(S1, 32), m1);
    var m3 := Exec(Store(S2, 33), m2);
    var m4 := Exec(Store(S3, 34), m3);
    StoreStep(S0, 2, m);
    StoreStep(S1, 32, m1);
    StoreStep(S2, 33, m2);
    StoreStep(S3, 34, m3);
    StoreStep(S4, 35, m4);
  }

  lemma SaveRegsEffect(m: State)
    requires HasRoom(m)
    ensures var r := Run(SAVE_REGS, m); var base := m.x[SP];
      && r == m.(mem := r.mem) && SameOutside(m.mem, r.mem, base)
      && forall k: Reg :: k != SP ==> At(r.mem, base, k) == m.x[k]
  {
    hide At, Run, SameOutside;
    SavedRegs();
    RunStores(SAVE_REGS, m);
  }

  lemma SaveCsrsEffect(m: State)
    requires HasRoom(m)
    ensures var r := Run(SAVE_CSRS, m); var base := m.x[SP];
      && r == m.(x := r.x, mem := r.mem, sscratch := 0) && r.x[SP] == base && SameOutside(m.mem, r.mem, base)
      && (forall k: Slot :: k != 2 && k < 32 ==> At(r.mem, base, k) == At(m.mem, base, k))
      && At(r.mem, base, 2) == m.sscratch && At(r.mem, base, 32) == m.sstatus && At(r.mem, base, 33) == m.sepc
      && At(r.mem, base, 34) == m.sbadaddr && At(r.mem, base, 35) == m.scause
  {
    hide At, Run, SameOutside;
    assert SAVE_CSRS == READ_CSRS + STORE_CSRS;
    RunConcat(READ_CSRS, STORE_CSRS, m);
    ReadCsrs(m);
    StoreCsrs(Run(READ_CSRS, m));
  }

  /** `SAVE_ALL` lays the whole context down in a new frame below the stack pointer. */
  lemma SaveAllEffect(m: State)
    requires m.x[SP] >= FRAME
    ensures var r := Run(SAVE_ALL, m); var base := m.x[SP] - FRAME;
      && r == m.(x := r.x, mem := r.mem, sscratch := 0) && r.x[SP] == base
      && FrameHolds(r.mem, base, m)
      && SameOutside(m.mem, r.mem, base)
  {
    hide At, Run;
    var pre := [Csrw(Sscratch, SP), Addi(SP, SP, -FRAME)];
    RunConcat(pre + SAVE_REGS, SAVE_CSRS, m);
    RunConcat(pre, SAVE_REGS, m);
    MakeFrame(m);
    var m1 := Run(pre, m);
    SaveRegsEffect(m1);
    var m2 := Run(SAVE_REGS, m1);
    SaveCsrsEffect(m2);
    assert forall k: Reg :: k != SP ==> m1.x[k] == m.x[k];
  }

  lemma MakeFrame(m: State)
    requires m.x[SP] >= FRAME
    ensures Run([Csrw(Sscratch, SP), Addi(SP, SP, -FRAME)], m) ==
            m.(sscratch := m.x[SP], x := m.x[SP := m.x[SP] - FRAME])
  {
    hide Run;
    RunTwo(Csrw(Sscratch, SP), Addi(SP, SP, -FRAME), m);
  }

  /** `RESTORE_ALL` reads the whole context back from the frame. */
  lemma RestoreAllEffect(m: State)
    requires HasRoom(m)
    ensures var r := Run(RESTORE_ALL, m);
      && r == m.(x := r.x, sstatus := At(m.mem, m.x[SP], 32), sepc := At(m.mem, m.x[SP], 33))
      && forall k: Reg :: k != ZERO ==> r.x[k] == At(m.mem, m.x[SP], k)
  {
    hide At, Run;
    RunConcat(RESTORE_CSRS + RESTORE_REGS, [Load(SP, 2)], m);
    RunConcat(RESTORE_CSRS, RESTORE_REGS, m);
    RestoreCsrs(m);
    var m1 := Run(RESTORE_CSRS, m);
    RestoredRegs();
    RunLoads(RESTORE_REGS, m1);
    LoadSp(Run(RESTORE_REGS, m1));
  }

  lemma WriteCsrs(m: State)
    ensures Exec(Csrw(Sepc, S2), Exec(Csrw(Sstatus, S1), m)) == m.(sstatus := m.x[S1], sepc := m.x[S2])
  {
  }

  lemma RestoreCsrs(m: State)
    requires HasRoom(m)
    ensures var r := Run(RESTORE_CSRS, m);
      && r == m.(x := r.x, sstatus := At(m.mem, m.x[SP], 32), sepc := At(m.mem, m.x[SP], 33))
      && r.x[SP] == m.x[SP]
  {
    hide Run, Exec, At;
    RunFour(Load(S1, 32), Load(S2, 33), Csrw(Sstatus, S1), Csrw(Sepc, S2), m);
    LoadStep(S1, 32, m);
    var m1 := Exec(Load(S1, 32), m);
    LoadStep(S2, 33, m1);
    WriteCsrs(Exec(Load(S2, 33), m1));
  }

  lemma LoadSp(m: State)
    requires HasRoom(m)
    ensures Run([Load(SP, 2)], m) == m.(x := m.x[SP := At(m.mem, m.x[SP], 2)])
  {
    hide Run, Exec;
    RunOne(Load(SP, 2), m);
    LoadStep(SP, 2, m);
  }

  lemma SlotIs(m: State, k: Slot)
    requires HasRoom(m)
    ensures SlotAddress(m, k) == m.x[SP] + k * REGBYTES
  {
  }
}
