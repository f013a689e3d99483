/** The part of the A64 instruction set that a relocated prologue can contain.
    Encodings and behaviour are those of section C6.2 of the Arm Architecture Reference
    Manual for A-profile. Registers, addresses and words are naturals below their width;
    an instruction field is read with a division and a remainder by powers of two. */
module Arm64Isa {

  const TWO32: nat := 0x1_0000_0000
  const TWO64: nat := 0x1_0000_0000_0000_0000

  type Word = w: nat | w < 0x1_0000_0000
  type Addr = a: nat | a < 0x1_0000_0000_0000_0000
  type Byte = b: nat | b < 256
  type Mem = nat -> Byte

  type Regs = x: seq<Addr> | |x| == 31 witness seq<Addr>(31, i => 0)

  /** Everything a program can observe except the program counter. */
  datatype Machine = Machine(x: Regs, sp: Addr, nzcv: nat, mem: Mem, vec: seq<nat>)

  datatype State = State(m: Machine, pc: Addr)

  /** What an instruction outside the modelled subset does. It is not given the program
      counter, so by its type it is position independent, and it falls through. */
  type Effect = (Word, Machine) -> Machine

  datatype Insn =
    | B(off: int)
    | BL(off: int)
    | LdrLitW(rt: nat, off: int)
    | LdrLitX(rt: nat, off: int)
    | LdrLitOther(w: Word)               // ldrsw, prfm and SIMD literals
    | Adr(rd: nat, off: int)
    | Adrp(rd: nat, off: int)
    | BCond(cond: nat, off: int)
    | CmpB(is64: bool, onNonZero: bool, rt: nat, off: int)
    | TestB(bit: nat, onNonZero: bool, rt: nat, off: int)
    | Movz(rd: nat, hw: nat, imm: nat)
    | Movk(rd: nat, hw: nat, imm: nat)
    | LdrX(rt: nat, rn: nat, imm: nat)
    | Br(rn: nat)
    | Blr(rn: nat)
    | Ret(rn: nat)
    | Unallocated(w: Word)
    | Other(w: Word)

  /** A two's complement field whose sign bit weighs half. */
  function SImm(v: nat, half: nat): int {
    if v < half then v else v - 2 * half
  }

  function Imm26(w: Word): nat { w % 0x400_0000 }
  function Imm19(w: Word): nat { w / 0x20 % 0x8_0000 }
  function Imm14(w: Word): nat { w / 0x20 % 0x4000 }
  function ImmHiLo(w: Word): nat { w / 0x20 % 0x8_0000 * 4 + w / 0x2000_0000 % 4 }
  function Low5(w: Word): nat { w % 32 }

  function Decode(w: Word): Insn {
    if w / 0x400_0000 % 32 == 5 then
      if w / 0x8000_0000 == 1 then BL(4 * SImm(Imm26(w), 0x200_0000)) else B(4 * SImm(Imm26(w), 0x200_0000))
    else if w / 0x800_0000 % 8 == 3 && w / 0x100_0000 % 4 == 0 then
      if w / 0x400_0000 % 2 == 1 || w / 0x8000_0000 == 1 then LdrLitOther(w)
      else if w / 0x4000_0000 == 0 then LdrLitW(Low5(w), 4 * SImm(Imm19(w), 0x4_0000))
      else LdrLitX(Low5(w), 4 * SImm(Imm19(w), 0x4_0000))
    else if w / 0x100_0000 % 32 == 0x10 then
      if w / 0x8000_0000 == 0 then Adr(Low5(w), SImm(ImmHiLo(w), 0x10_0000))
      else Adrp(Low5(w), 0x1000 * SImm(ImmHiLo(w), 0x10_0000))
    else if w / 0x200_0000 == 0x2A then
      if w / 0x100_0000 % 2 == 1 then Unallocated(w) else BCond(w % 16, 4 * SImm(Imm19(w), 0x4_0000))
    else if w / 0x200_0000 % 64 == 0x1A then
      CmpB(w / 0x8000_0000 == 1, w / 0x100_0000 % 2 == 1, Low5(w), 4 * SImm(Imm19(w), 0x4_0000))
    else if w / 0x200_0000 % 64 == 0x1B then
      TestB(w / 0x8000_0000 * 32 + w / 0x8_0000 % 32, w / 0x100_0000 % 2 == 1, Low5(w), 4 * SImm(Imm14(w), 0x2000))
    else if w / 0x80_0000 == 0x1A5 then Movz(Low5(w), w / 0x20_0000 % 4, w / 32 % 0x1_0000)
    else if w / 0x80_0000 == 0x1E5 then Movk(Low5(w), w / 0x20_0000 % 4, w / 32 % 0x1_0000)
    else if w / 0x40_0000 == 0x3E5 then LdrX(Low5(w), w / 32 % 32, 8 * (w / 0x400 % 0x1000))
    else if w / 0x400 == 0x3587C0 && w % 32 == 0 then Br(w / 32 % 32)
    else if w / 0x400 == 0x358FC0 && w % 32 == 0 then Blr(w / 32 % 32)
    else if w / 0x400 == 0x3597C0 && w % 32 == 0 then Ret(w / 32 % 32)
    else Other(w)
  }

  // ----- execution -----

  function Target(pc: Addr, off: int): Addr { (pc + off) % 0x1_0000_0000_0000_0000 }

  /** Register 31 reads as zero and ignores writes. */
  function Reg(m: Machine, r: nat): Addr { if r < 31 then m.x[r] else 0 }

  function SetReg(m: Machine, r: nat, v: Addr): Machine { if r < 31 then m.(x := m.x[r := v]) else m }

  function Read32(mem: Mem, a: nat): Word {
    mem(a) + 0x100 * mem(a + 1) + 0x1_0000 * mem(a + 2) + 0x100_0000 * mem(a + 3)
  }

  function Read64(mem: Mem, a: nat): Addr {
    Read32(mem, a) + 0x1_0000_0000 * Read32(mem, a + 4)
  }

  predicate CondHolds(cond: nat, nzcv: nat) {
    var n, z, c, v := nzcv / 8 % 2, nzcv / 4 % 2, nzcv / 2 % 2, nzcv % 2;
    var base :=
      match cond / 2
      case 0 => z == 1
      case 1 => c == 1
      case 2 => n == 1
      case 3 => v == 1
      case 4 => c == 1 && z == 0
      case 5 => n == v
      case 6 => n == v && z == 0
      case _ => true;
    if cond % 2 == 1 && cond != 15 then !base else base
  }

  function Pow2(n: nat): (p: nat)
    ensures p > 0
  {
    if n == 0 then 1 else 2 * Pow2(n - 1)
  }

  predicate TestHolds(i: Insn, m: Machine)
    requires i.CmpB? || i.TestB?
  {
    match i
    case CmpB(is64, nz, rt, _) =>
      var v := if is64 then Reg(m, rt) else Reg(m, rt) % 0x1_0000_0000;
      (v != 0) == nz
    case TestB(bit, nz, rt, _) => (Reg(m, rt) / Pow2(bit) % 2 == 1) == nz
  }

  /** Bits 16*hw .. 16*hw+15 of v replaced by imm. */
  function MoveKeep(v: Addr, hw: nat, imm: nat): Addr
    requires hw < 4 && imm < 0x1_0000
  {
    match hw
    case 0 => v / 0x1_0000 * 0x1_0000 + imm
    case 1 => v / 0x1_0000_0000 * 0x1_0000_0000 + imm * 0x1_0000 + v % 0x1_0000
    case 2 => v / 0x1_0000_0000_0000 * 0x1_0000_0000_0000 + imm * 0x1_0000_0000 + v % 0x1_0000_0000
    case 3 => imm * 0x1_0000_0000_0000 + v % 0x1_0000_0000_0000
  }

  /** One instruction at pc. Literal loads read lit: the program's own view of memory. */
  function Exec(eff: Effect, i: Insn, m: Machine, pc: Addr, lit: Mem): State
    requires i.Movz? || i.Movk? ==> i.hw < 4 && i.imm < 0x1_0000
  {
    var next := Target(pc, 4);
    match i
    case B(off) => State(m, Target(pc, off))
    case BL(off) => State(SetReg(m, 30, next), Target(pc, off))
    case LdrLitW(rt, off) => State(SetReg(m, rt, Read32(lit, Target(pc, off))), next)
    case LdrLitX(rt, off) => State(SetReg(m, rt, Read64(lit, Target(pc, off))), next)
    case Adr(rd, off) => State(SetReg(m, rd, Target(pc, off)), next)
    case Adrp(rd, off) => State(SetReg(m, rd, Target(pc / 0x1000 * 0x1000, off)), next)
    case BCond(cond, off) => State(m, if CondHolds(cond, m.nzcv) then Target(pc, off) else next)
    case CmpB(_, _, _, off) => State(m, if TestHolds(i, m) then Target(pc, off) else next)
    case TestB(_, _, _, off) => State(m, if TestHolds(i, m) then Target(pc, off) else next)
    case Movz(rd, hw, imm) => State(SetReg(m, rd, MoveKeep(0, hw, imm)), next)
    case Movk(rd, hw, imm) => State(SetReg(m, rd, MoveKeep(Reg(m, rd), hw, imm)), next)
    case LdrX(rt, rn, imm) =>
      var base := if rn < 31 then m.x[rn] else m.sp;
      State(SetReg(m, rt, Read64(m.mem, Target(base, imm))), next)
    case Br(rn) => State(m, Reg(m, rn))
    case Blr(rn) => State(SetReg(m, 30, next), Reg(m, rn))
    case Ret(rn) => State(m, Reg(m, rn))
    case LdrLitOther(w) => State(eff(w, m), next)
    case Unallocated(w) => State(eff(w, m), next)
    case Other(w) => State(eff(w, m), next)
  }

  lemma DecodeFields(w: Word)
    ensures var i := Decode(w); i.Movz? || i.Movk? ==> i.hw < 4 && i.imm < 0x1_0000
  {}

  // ----- what the tests mean -----

  function Signed64(a: Addr): int { if a < 0x8000_0000_0000_0000 then a else a - TWO64 }

  /** The flags after a comparison of a with b: of a - b negative, zero, no borrow, signed overflow. */
  function CompareFlags(a: Addr, b: Addr): nat {
    var n := if a >= b then a - b >= 0x8000_0000_0000_0000 else a - b + TWO64 >= 0x8000_0000_0000_0000;
    var d := Signed64(a) - Signed64(b);
    (if n then 8 else 0) + (if a == b then 4 else 0) + (if a >= b then 2 else 0)
      + (if d < -0x8000_0000_0000_0000 || d >= 0x8000_0000_0000_0000 then 1 else 0)
  }

  lemma FlagDigits(n: nat, z: nat, c: nat, v: nat)
    requires n <= 1 && z <= 1 && c <= 1 && v <= 1
    ensures var f := 8 * n + 4 * z + 2 * c + v; f / 8 % 2 == n && f / 4 % 2 == z && f / 2 % 2 == c && f % 2 == v
  {
  }

  /** After a comparison the conditions are eq and ne, hs and lo, mi and pl, vs and vc, hi and ls, ge and
      lt, gt and le of the values compared, and twice always. */
  lemma {:induction false} ConditionsCompare(a: Addr, b: Addr)
    ensures var f, d := CompareFlags(a, b), Signed64(a) - Signed64(b);
      && (CondHolds(0, f) <==> a == b) && (CondHolds(1, f) <==> a != b)
      && (CondHolds(2, f) <==> a >= b) && (CondHolds(3, f) <==> a < b)
      && (CondHolds(4, f) <==> Signed64((a - b) % TWO64) < 0) && (CondHolds(5, f) <==> Signed64((a - b) % TWO64) >= 0)
      && (CondHolds(6, f) <==> Signed64((a - b) % TWO64) != d) && (CondHolds(7, f) <==> Signed64((a - b) % TWO64) == d)
      && (CondHolds(8, f) <==> a > b) && (CondHolds(9, f) <==> a <= b)
      && (CondHolds(10, f) <==> d >= 0) && (CondHolds(11, f) <==> d < 0)
      && (CondHolds(12, f) <==> d > 0) && (CondHolds(13, f) <==> d <= 0)
      && CondHolds(14, f) && CondHolds(15, f)
  {
    var n := if a >= b then a - b >= 0x8000_0000_0000_0000 else a - b + TWO64 >= 0x8000_0000_0000_0000;
    var d := Signed64(a) - Signed64(b);
    FlagDigits(if n then 1 else 0, if a == b then 1 else 0, if a >= b then 1 else 0,
               if d < -0x8000_0000_0000_0000 || d >= 0x8000_0000_0000_0000 then 1 else 0);
    assert (a - b) % TWO64 == if a >= b then a - b else a - b + TWO64;
  }

  /** Bit i of x. */
  function BitOf(x: nat, i: nat): nat { if i == 0 then x % 2 else BitOf(x / 2, i - 1) }

  lemma {:induction false} ShiftedBit(x: nat, i: nat)
    ensures x / Pow2(i) % 2 == BitOf(x, i)
  {
    if i > 0 {
      ShiftedBit(x / 2, i - 1);
      HalfFirst(x, Pow2(i - 1));
    }
  }

  lemma HalfFirst(x: nat, p: nat)
    requires p > 0
    ensures x / (2 * p) == x / 2 / p
  {
    var q := x / 2 / p;
    assert x / 2 == q * p + x / 2 % p;
    assert x == q * (2 * p) + (2 * (x / 2 % p) + x % 2);
    QuotientUnique(x, 2 * p, q, 2 * (x / 2 % p) + x % 2);
  }

  lemma QuotientUnique(x: nat, n: nat, q: nat, r: nat)
    requires r < n && x == q * n + r
    ensures x / n == q
  {
    var k := x / n;
    assert x == k * n + x % n;
    assert (k - q) * n == k * n - q * n;
    NoMultiple(k - q, n);
  }

  lemma NoMultiple(d: int, n: int)
    requires -n < d * n < n
    ensures d == 0
  {
    if d >= 1 {
      OneMultiple(d, n);
    } else if d <= -1 {
      OneMultiple(-d, n);
    }
  }

  lemma OneMultiple(d: int, n: int)
    requires d >= 1 && n > 0
    ensures d * n >= n
  {
    assert (d - 1) * n >= 0;
  }

  /** cbz and cbnz look at the whole register or its low half, tbz and tbnz at one bit; register 31
      is zero. */
  lemma {:induction false} TestsMean(m: Machine, nz: bool, rt: nat, bit: nat, off: int)
    ensures var x := if rt < 31 then m.x[rt] else 0;
      && (TestHolds(CmpB(true, nz, rt, off), m) <==> (nz <==> x != 0))
      && (TestHolds(CmpB(false, nz, rt, off), m) <==> (nz <==> x % 0x1_0000_0000 != 0))
      && (TestHolds(TestB(bit, nz, rt, off), m) <==> (nz <==> BitOf(x, bit) == 1))
  {
    ShiftedBit(if rt < 31 then m.x[rt] else 0, bit);
    hide Pow2, BitOf;
  }
}
