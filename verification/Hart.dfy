/** trapentry.S as instructions of a small RISC-V machine, in the configuration where the
    assembly's slots are the fields of `struct trapframe`: REGBYTES is 4. */
module Hart {
  import opened CTypes
  import opened Numerals

  type Word = uint32

  const REGBYTES := 4
  const FRAME := 36 * REGBYTES

  type Reg = r: int | 0 <= r < 32
  type Slot = k: int | 0 <= k < 36
  type Regs = x: seq<Word> | |x| == 32 && x[0] == 0 ghost witness seq(32, _ => 0)

  const ZERO: Reg := 0
  const RA: Reg := 1
  const SP: Reg := 2
  const S0: Reg := 8
  const S1: Reg := 9
  const A0: Reg := 10
  const S2: Reg := 18
  const S3: Reg := 19
  const S4: Reg := 20

  datatype Csr = Sscratch | Sstatus | Sepc | Sbadaddr | Scause

  datatype Priv = User | Supervisor

  /** Memory is addressed in bytes and accessed in aligned words: a key of `mem` is the
      address of a word, and a multiple of REGBYTES. */
  datatype State = State(
    x: Regs, mem: map<int, Word>,
    sscratch: Word, sstatus: Word, sepc: Word, sbadaddr: Word, scause: Word,
    stvec: Word, pc: Word, priv: Priv,
    alltraps: Word, trap: Word, trapret: Word)    // the addresses of the labels

  datatype Instr =
    | Csrw(csr: Csr, rs: Reg)
    | Csrrw(rd: Reg, csr: Csr, rs: Reg)
    | Csrr(rd: Reg, csr: Csr)
    | Addi(rd: Reg, rs: Reg, imm: int)
    | Move(rd: Reg, rs: Reg)
    | JalTrap
    | Sret
    | Store(rs: Reg, slot: Slot)      // STORE rs, slot*REGBYTES(sp)
    | Load(rd: Reg, slot: Slot)       // LOAD rd, slot*REGBYTES(sp)

  // ------------------------------------------------------------- one step

  function Read(mem: map<int, Word>, a: int): Word { if a in mem then mem[a] else 0 }

  function SetReg(x: Regs, r: Reg, v: Word): Regs { if r == ZERO then x else x[r := v] }

  function GetCsr(m: State, c: Csr): Word {
    match c
    case Sscratch => m.sscratch
    case Sstatus => m.sstatus
    case Sepc => m.sepc
    case Sbadaddr => m.sbadaddr
    case Scause => m.scause
  }

  function SetCsr(m: State, c: Csr, v: Word): State {
    match c
    case Sscratch => m.(sscratch := v)
    case Sstatus => m.(sstatus := v)
    case Sepc => m.(sepc := v)
    case Sbadaddr => m.(sbadaddr := v)
    case Scause => m.(scause := v)
  }

  predicate Aligned(a: int) { a % REGBYTES == 0 }

  function SlotAddress(m: State, k: Slot): Word { ToUint32(m.x[SP] + k * REGBYTES) }

  function Exec(i: Instr, m: State): State {
    match i
    case Csrw(c, rs) => SetCsr(m, c, m.x[rs])
    case Csrrw(rd, c, rs) => SetCsr(m, c, m.x[rs]).(x := SetReg(m.x, rd, GetCsr(m, c)))
    case Csrr(rd, c) => m.(x := SetReg(m.x, rd, GetCsr(m, c)))
    case Addi(rd, rs, imm) => m.(x := SetReg(m.x, rd, ToUint32(m.x[rs] + imm)))
    case Move(rd, rs) => m.(x := SetReg(m.x, rd, m.x[rs]))
    case JalTrap => m.(x := SetReg(m.x, RA, m.trapret), pc := m.trap)
    case Sret => AfterSret(m)
    case Store(rs, k) => m.(mem := m.mem[SlotAddress(m, k) := m.x[rs]])
    case Load(rd, k) => m.(x := SetReg(m.x, rd, Read(m.mem, SlotAddress(m, k))))
  }

  function Run(p: seq<Instr>, m: State): State {
    if p == [] then m else Run(p[1..], Exec(p[0], m))
  }

  // ----------------------------------------------------------- trapentry.S

  const SAVE_0 := [
    Store(0, 0), Store(1, 1), Store(3, 3), Store(4, 4),
    Store(5, 5), Store(6, 6), Store(7, 7)]
  const SAVE_8 := [
    Store(8, 8), Store(9, 9), Store(10, 10), Store(11, 11),
    Store(12, 12), Store(13, 13), Store(14, 14), Store(15, 15)]
  const SAVE_16 := [
    Store(16, 16), Store(17, 17), Store(18, 18), Store(19, 19),
    Store(20, 20), Store(21, 21), Store(22, 22), Store(23, 23)]
  const SAVE_24 := [
    Store(24, 24), Store(25, 25), Store(26, 26), Store(27, 27),
    Store(28, 28), Store(29, 29), Store(30, 30), Store(31, 31)]
  const SAVE_REGS: seq<Instr> := SAVE_0 + SAVE_8 + SAVE_16 + SAVE_24

  const SAVE_CSRS: seq<Instr> := [
    Csrrw(S0, Sscratch, ZERO), Csrr(S1, Sstatus), Csrr(S2, Sepc), Csrr(S3, Sbadaddr), Csrr(S4, Scause),
    Store(S0, 2), Store(S1, 32), Store(S2, 33), Store(S3, 34), Store(S4, 35)]

  const SAVE_ALL: seq<Instr> := [Csrw(Sscratch, SP), Addi(SP, SP, -FRAME)] + SAVE_REGS + SAVE_CSRS

  const RESTORE_CSRS: seq<Instr> := [Load(S1, 32), Load(S2, 33), Csrw(Sstatus, S1), Csrw(Sepc, S2)]

  const RESTORE_0 := [
    Load(1, 1), Load(3, 3), Load(4, 4), Load(5, 5),
    Load(6, 6), Load(7, 7)]
  const RESTORE_8 := [
    Load(8, 8), Load(9, 9), Load(10, 10), Load(11, 11),
    Load(12, 12), Load(13, 13), Load(14, 14), Load(15, 15)]
  const RESTORE_16 := [
    Load(16, 16), Load(17, 17), Load(18, 18), Load(19, 19),
    Load(20, 20), Load(21, 21), Load(22, 22), Load(23, 23)]
  const RESTORE_24 := [
    Load(24, 24), Load(25, 25), Load(26, 26), Load(27, 27),
    Load(28, 28), Load(29, 29), Load(30, 30), Load(31, 31)]
  const RESTORE_REGS: seq<Instr> := RESTORE_0 + RESTORE_8 + RESTORE_16 + RESTORE_24

  const RESTORE_ALL: seq<Instr> := RESTORE_CSRS + RESTORE_REGS + [Load(SP, 2)]

  const ALLTRAPS: seq<Instr> := SAVE_ALL + [Move(A0, SP), JalTrap]

  const TRAPRET: seq<Instr> := RESTORE_ALL + [Sret]

  /** The instructions at the program counter: those of a label up to the jump that ends them. */
  function Code(m: State): seq<Instr> {
    if m.pc == m.alltraps then ALLTRAPS else if m.pc == m.trapret then TRAPRET else []
  }

  // -------------------------------------------------------- trap and sret

  const SIE := 0x2
  const SPIE := 0x20
  const SPP := 0x100

  function Bit(w: Word, p: int): int
    requires p in {SIE, SPIE, SPP}
  {
    if p == SIE then w / 2 % 2 else if p == SPIE then w / 32 % 2 else w / 256 % 2
  }

  /** A word from its three status bits and the bits around them. */
  function Join(high: int, spp: int, mid: int, spie: int, low: int, sie: int, uie: int): int {
    high * 512 + spp * 256 + mid * 64 + spie * 32 + low * 4 + sie * 2 + uie
  }

  /** Every word is made of its status bits and the bits around them. */
  lemma SplitWord(w: Word) returns (high: nat, mid: int, low: int, uie: int)
    ensures w == Join(high, Bit(w, SPP), mid, Bit(w, SPIE), low, Bit(w, SIE), uie)
    ensures high < 0x80_0000 && 0 <= mid < 4 && 0 <= low < 8 && 0 <= uie <= 1
    ensures 0 <= Bit(w, SPP) <= 1 && 0 <= Bit(w, SPIE) <= 1 && 0 <= Bit(w, SIE) <= 1
  {
    high, mid, low, uie := w / 512, w / 64 % 4, w / 4 % 8, w % 2;
    SplitParts(w);
  }

  lemma SplitParts(w: Word)
    ensures w == Join(w / 512, Bit(w, SPP), w / 64 % 4, Bit(w, SPIE), w / 4 % 8, Bit(w, SIE), w % 2)
    ensures 0 <= Bit(w, SPP) <= 1 && 0 <= Bit(w, SPIE) <= 1 && 0 <= Bit(w, SIE) <= 1
  {
    Quotients(w);
    var a, b, c, d, e := w / 2, w / 4, w / 32, w / 64, w / 256;
    assert w == a * 2 + w % 2 && a == b * 2 + a % 2 && b == c * 8 + b % 8;
    assert c == d * 2 + c % 2 && d == e * 4 + d % 4 && e == w / 512 * 2 + e % 2;
  }

  lemma Quotients(w: nat)
    ensures w / 4 == w / 2 / 2 && w / 32 == w / 4 / 8 && w / 64 == w / 32 / 2
    ensures w / 256 == w / 64 / 4 && w / 512 == w / 256 / 2
  {
  }

  lemma BitsOfJoin(high: nat, spp: int, mid: int, spie: int, low: int, sie: int, uie: int)
    requires high < 0x80_0000 && 0 <= spp <= 1 && 0 <= mid < 4 && 0 <= spie <= 1
    requires 0 <= low < 8 && 0 <= sie <= 1 && 0 <= uie <= 1
    ensures var w := Join(high, spp, mid, spie, low, sie, uie);
      0 <= w < TWO_32 && Bit(w, SPP) == spp && Bit(w, SPIE) == spie && Bit(w, SIE) == sie
  {
    SppOf(high, spp, mid * 64 + spie * 32 + low * 4 + sie * 2 + uie);
    SpieOf(high * 8 + spp * 4 + mid, spie, low * 4 + sie * 2 + uie);
    SieOf(high * 128 + spp * 64 + mid * 16 + spie * 8 + low, sie, uie);
  }

  lemma SppOf(q: nat, b: int, r: int)
    requires 0 <= b <= 1 && 0 <= r < 256
    ensures (q * 512 + b * 256 + r) / 256 % 2 == b
  {
    assert (q * 512 + b * 256 + r) / 256 == q * 2 + b;
  }

  lemma SpieOf(q: nat, b: int, r: int)
    requires 0 <= b <= 1 && 0 <= r < 32
    ensures (q * 64 + b * 32 + r) / 32 % 2 == b
  {
    assert (q * 64 + b * 32 + r) / 32 == q * 2 + b;
  }

  lemma SieOf(q: nat, b: int, r: int)
    requires 0 <= b <= 1 && 0 <= r < 2
    ensures (q * 4 + b * 2 + r) / 2 % 2 == b
  {
    assert (q * 4 + b * 2 + r) / 2 == q * 2 + b;
  }

  lemma ChangeBit(w: Word, p: int, b: int)
    requires p in {SIE, SPIE, SPP} && 0 <= b <= 1
    ensures var d := b - Bit(w, p);
      var r := if p == SIE then w + 2 * d else if p == SPIE then w + 32 * d else w + 256 * d;
      0 <= r < TWO_32 && forall q :: q in {SIE, SPIE, SPP} ==> Bit(r, q) == if q == p then b else Bit(w, q)
  {
    hide Bit;
    var high, mid, low, uie := SplitWord(w);
    BitsOfJoin(high, if p == SPP then b else Bit(w, SPP), mid,
               if p == SPIE then b else Bit(w, SPIE), low, if p == SIE then b else Bit(w, SIE), uie);
  }

  /** `w` with the bit of weight `p` set to `b`. */
  function With(w: Word, p: int, b: int): (r: Word)
    requires p in {SIE, SPIE, SPP} && 0 <= b <= 1
    ensures forall q :: q in {SIE, SPIE, SPP} ==> Bit(r, q) == if q == p then b else Bit(w, q)
  {
    hide Bit;
    ChangeBit(w, p, b);
    var d := b - Bit(w, p);
    if p == SIE then w + 2 * d else if p == SPIE then w + 32 * d else w + 256 * d
  }

  /** The bits around the status bits. */
  predicate SameOthers(w: int, r: int) {
    r / 512 == w / 512 && r / 64 % 4 == w / 64 % 4 && r / 4 % 8 == w / 4 % 8 && r % 2 == w % 2
  }

  lemma WithKeepsOthers(w: Word, p: int, b: int)
    requires p in {SIE, SPIE, SPP} && 0 <= b <= 1
    ensures SameOthers(w, With(w, p, b))
  {
    hide Bit;
    SplitParts(w);
    var high, mid, low, uie := w / 512, w / 64 % 4, w / 4 % 8, w % 2;
    var spp, spie, sie := if p == SPP then b else Bit(w, SPP), if p == SPIE then b else Bit(w, SPIE),
                          if p == SIE then b else Bit(w, SIE);
    assert With(w, p, b) == Join(high, spp, mid, spie, low, sie, uie);
    OthersOfJoin(high, spp, mid, spie, low, sie, uie);
  }

  lemma OthersOfJoin(high: nat, spp: int, mid: int, spie: int, low: int, sie: int, uie: int)
    requires 0 <= spp <= 1 && 0 <= mid < 4 && 0 <= spie <= 1 && 0 <= low < 8 && 0 <= sie <= 1 && 0 <= uie <= 1
    ensures var w := Join(high, spp, mid, spie, low, sie, uie);
      w / 512 == high && w / 64 % 4 == mid && w / 4 % 8 == low && w % 2 == uie
  {
    DivMod(high, spp * 256 + mid * 64 + spie * 32 + low * 4 + sie * 2 + uie, 512);
    DivMod(high * 8 + spp * 4 + mid, spie * 32 + low * 4 + sie * 2 + uie, 64);
    DivMod(high * 2 + spp, mid, 4);
    DivMod(high * 128 + spp * 64 + mid * 16 + spie * 8 + low, sie * 2 + uie, 4);
    DivMod(high * 16 + spp * 8 + mid * 2 + spie, low, 8);
    DivMod(high * 256 + spp * 128 + mid * 32 + spie * 16 + low * 2 + sie, uie, 2);
  }

  function PrivBit(p: Priv): int { if p == Supervisor then 1 else 0 }

  /** The hardware takes a trap (section 4.1.1 of the RISC-V Privileged Architecture v1.10). */
  function Enter(m: State, cause: Word, tval: Word): State {
    m.(sepc := m.pc, scause := cause, sbadaddr := tval, pc := m.stvec, priv := Supervisor,
       sstatus := With(With(With(m.sstatus, SPIE, Bit(m.sstatus, SIE)), SIE, 0), SPP, PrivBit(m.priv)))
  }

  /** The hardware goes back to where the trap was taken. */
  function AfterSret(m: State): State {
    m.(pc := m.sepc, priv := if Bit(m.sstatus, SPP) == 1 then Supervisor else User,
       sstatus := With(With(With(m.sstatus, SIE, Bit(m.sstatus, SPIE)), SPIE, 1), SPP, 0))
  }
}
