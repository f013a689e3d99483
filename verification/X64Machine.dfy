/** x64 code as far as the relocator needs it: bytes, the control-transfer instructions, and what
    running them does. */
module X64Machine {

  datatype Option<+T> = None | Some(value: T)

  type Byte = b: int | 0 <= b < 0x100
  const TWO32 := 0x1_0000_0000
  const TWO64 := 0x1_0000_0000_0000_0000

  function U64(x: int): nat { x % TWO64 }
  function Sext8(x: int): int { if x % 0x100 < 0x80 then x % 0x100 else x % 0x100 - 0x100 }
  function Sext32(x: int): int { if x % TWO32 < 0x8000_0000 then x % TWO32 else x % TWO32 - TWO32 }

  /** Sign extension: the number in the signed range with the same low byte, or the same low four. */
  lemma SignExtended(x: int)
    ensures -0x80 <= Sext8(x) <= 0x7F && (Sext8(x) - x) % 0x100 == 0
    ensures -0x8000_0000 <= Sext32(x) <= 0x7FFF_FFFF && (Sext32(x) - x) % 0x1_0000_0000 == 0
  {
  }

  function Le32(x: nat): (r: seq<Byte>)
    requires x < TWO32
    ensures |r| == 4
  {
    [x % 0x100, x / 0x100 % 0x100, x / 0x1_0000 % 0x100, x / 0x100_0000]
  }

  function Le64(x: nat): (r: seq<Byte>)
    requires x < TWO64
    ensures |r| == 8
  {
    Le32(x % TWO32) + Le32(x / TWO32)
  }

  /** Code memory; it does not change while the code runs. */
  datatype Mem = Mem(at: nat -> Byte)

  function Read32(m: Mem, a: nat): nat {
    m.at(a) + 0x100 * (m.at(a + 1) as int) + 0x1_0000 * (m.at(a + 2) as int) + 0x100_0000 * (m.at(a + 3) as int)
  }

  function Read64(m: Mem, a: nat): nat { Read32(m, a) + TWO32 * Read32(m, a + 4) }

  /** The n bytes at a. */
  function Bytes(m: Mem, a: nat, n: nat): (r: seq<Byte>)
    ensures |r| == n
  {
    seq<Byte>(n, k requires 0 <= k < n => m.at(a + k))
  }

  ghost predicate Holds(m: Mem, a: nat, bs: seq<Byte>) { Bytes(m, a, |bs|) == bs }

  lemma {:induction false} ByteAt(m: Mem, a: nat, bs: seq<Byte>, k: nat)
    requires Holds(m, a, bs) && k < |bs|
    ensures m.at(a + k) == bs[k]
  {
    assert Bytes(m, a, |bs|)[k] == m.at(a + k);
  }

  lemma Split32(x: nat)
    requires x < TWO32
    ensures x == x % 0x100 + 0x100 * (x / 0x100 % 0x100) + 0x1_0000 * (x / 0x1_0000 % 0x100) + 0x100_0000 * (x / 0x100_0000)
  {
    assert x == x % 0x100 + 0x100 * (x / 0x100);
    assert x / 0x100 / 0x100 == x / 0x1_0000;
    assert x / 0x1_0000 / 0x100 == x / 0x100_0000;
  }

  lemma Read32Back(m: Mem, a: nat, x: nat)
    requires x < TWO32 && Holds(m, a, Le32(x))
    ensures Read32(m, a) == x
  {
    Split32(x);
    ByteAt(m, a, Le32(x), 0);
    ByteAt(m, a, Le32(x), 1);
    ByteAt(m, a, Le32(x), 2);
    ByteAt(m, a, Le32(x), 3);
  }

  lemma {:induction false} HoldsSplit(m: Mem, a: nat, x: seq<Byte>, y: seq<Byte>)
    ensures Holds(m, a, x + y) <==> Holds(m, a, x) && Holds(m, a + |x|, y)
  {
    assert Bytes(m, a, |x| + |y|) == Bytes(m, a, |x|) + Bytes(m, a + |x|, |y|);
    assert (x + y)[..|x|] == x && (x + y)[|x|..] == y;
  }

  lemma Read64Back(m: Mem, a: nat, x: nat)
    requires x < TWO64 && Holds(m, a, Le64(x))
    ensures Read64(m, a) == x
  {
    HoldsSplit(m, a, Le32(x % TWO32), Le32(x / TWO32));
    Read32Back(m, a, x % TWO32);
    Read32Back(m, a + 4, x / TWO32);
  }

  // ----- instructions -----

  /** What an instruction does with its RIP-relative memory operand. */
  datatype RipUse = Operate(op: nat) | JumpThrough | CallThrough

  datatype Insn =
    | Jcc(cc: nat, rel: int)
    | Jmp(rel: int)
    | Call(rel: int)
    | Rip(use: RipUse, disp: int)
    | Plain(op: nat)             // does the same at any address
    | Other                      // anything else

  /** Registers, flags and data memory. */
  type Data = int

  /** The processor: the instruction at an address and its length, where its displacement is, and
      what instructions do. */
  datatype Cpu = Cpu(decode: (Mem, nat) -> (Insn, nat), dispOffset: (Mem, nat) -> nat, cond: (nat, Data) -> bool, push: (Data, nat) -> Data,
                     plain: (nat, Data) -> Data, operate: (nat, nat, Data) -> Data)

  /** mem2 has at b the n bytes that mem1 has at a. */
  ghost predicate SameBytes(m1: Mem, a: nat, m2: Mem, b: nat, n: nat) { Bytes(m1, a, n) == Bytes(m2, b, n) }

  /** How the one-byte jumps, the indirect jump and call through RIP, and the rel32 forms decode
      (Intel 64 and IA-32 Architectures Software Developer's Manual, volume 2). */
  ghost predicate DecodesBranches(cpu: Cpu) {
    && (forall m: Mem, a: nat :: 0x70 <= m.at(a) <= 0x7F ==> cpu.decode(m, a) == (Jcc(m.at(a) - 0x70, Sext8(m.at(a + 1))), 2))
    && (forall m: Mem, a: nat :: m.at(a) == 0xEB ==> cpu.decode(m, a) == (Jmp(Sext8(m.at(a + 1))), 2))
    && (forall m: Mem, a: nat :: m.at(a) == 0xFF && m.at(a + 1) == 0x25 ==>
          cpu.decode(m, a) == (Rip(JumpThrough, Sext32(Read32(m, a + 2))), 6))
    && (forall m: Mem, a: nat :: m.at(a) == 0xFF && m.at(a + 1) == 0x15 ==>
          cpu.decode(m, a) == (Rip(CallThrough, Sext32(Read32(m, a + 2))), 6))
  }

  /** An instruction that does not depend on its address decodes by its bytes alone. */
  ghost predicate DecodesLocally(cpu: Cpu) {
    forall m1: Mem, a: nat, m2: Mem, b: nat :: cpu.decode(m1, a).0.Plain? && SameBytes(m1, a, m2, b, cpu.decode(m1, a).1) ==>
      cpu.decode(m2, b) == cpu.decode(m1, a)
  }

  /** i, which has n bytes at a, uses a RIP-relative operand with its displacement at offset o, and
      b has the same bytes but for the displacement. */
  ghost predicate RipMoved(i: Insn, n: nat, o: nat, m1: Mem, a: nat, m2: Mem, b: nat) {
    i.Rip? && o + 4 <= n && SameBytes(m1, a, m2, b, o) && SameBytes(m1, a + (o + 4), m2, b + (o + 4), n - (o + 4))
  }

  /** Such an instruction decodes by its bytes too, with the displacement found there. */
  ghost predicate DecodesRip(cpu: Cpu) {
    forall m1: Mem, a: nat, m2: Mem, b: nat ::
      RipMoved(cpu.decode(m1, a).0, cpu.decode(m1, a).1, cpu.dispOffset(m1, a), m1, a, m2, b) ==>
        cpu.decode(m2, b) == (Rip(cpu.decode(m1, a).0.use, Sext32(Read32(m2, b + cpu.dispOffset(m1, a)))), cpu.decode(m1, a).1)
  }

  ghost predicate ProperCpu(cpu: Cpu) { DecodesBranches(cpu) && DecodesLocally(cpu) && DecodesRip(cpu) }

  /** There are such processors; this one knows the branches, and psrldq xmm with a byte count, which
      it counts. */
  lemma ProperCpusExist()
    ensures ProperCpu(BranchCpu())
  {
    BranchCpuDecodesRip();
    BranchCpuDecodesLocally();
    hide DecodesRip, DecodesLocally;
    assert DecodesBranches(BranchCpu());
  }

  lemma BranchCpuDecodesLocally()
    ensures DecodesLocally(BranchCpu())
  {
    var cpu := BranchCpu();
    hide Read32, Sext32, Sext8, SameBytes;
    forall m1: Mem, a: nat, m2: Mem, b: nat | cpu.decode(m1, a).0.Plain? && SameBytes(m1, a, m2, b, cpu.decode(m1, a).1)
      ensures cpu.decode(m2, b) == cpu.decode(m1, a)
    {
      SameByteAt(m1, a, m2, b, 5, 0);
      SameByteAt(m1, a, m2, b, 5, 1);
      SameByteAt(m1, a, m2, b, 5, 2);
    }
  }

  lemma SameByteAt(m1: Mem, a: nat, m2: Mem, b: nat, n: nat, k: nat)
    requires SameBytes(m1, a, m2, b, n) && k < n
    ensures m1.at(a + k) == m2.at(b + k)
  {
    assert Bytes(m1, a, n)[k] == Bytes(m2, b, n)[k];
  }

  lemma BranchCpuDecodesRip()
    ensures DecodesRip(BranchCpu())
  {
    var cpu := BranchCpu();
    hide Read32, Sext32, Sext8, SameBytes;
    forall m1: Mem, a: nat, m2: Mem, b: nat
      | RipMoved(cpu.decode(m1, a).0, cpu.decode(m1, a).1, cpu.dispOffset(m1, a), m1, a, m2, b)
      ensures cpu.decode(m2, b) == (Rip(cpu.decode(m1, a).0.use, Sext32(Read32(m2, b + cpu.dispOffset(m1, a)))), cpu.decode(m1, a).1)
    {
      SameByteAt(m1, a, m2, b, 2, 0);
      SameByteAt(m1, a, m2, b, 2, 1);
    }
  }

  function BranchCpu(): Cpu {
    Cpu((m, a) => BranchDecode(m, a), (m, a) => 2, (cc, d) => d > cc, (d, a) => d + a, (op, d) => d + 1, (op, a, d) => d)
  }

  function BranchDecode(m: Mem, a: nat): (Insn, nat) {
    if 0x70 <= m.at(a) <= 0x7F then (Jcc(m.at(a) - 0x70, Sext8(m.at(a + 1))), 2)
    else if m.at(a) == 0xEB then (Jmp(Sext8(m.at(a + 1))), 2)
    else if m.at(a) == 0xFF && m.at(a + 1) == 0x25 then (Rip(JumpThrough, Sext32(Read32(m, a + 2))), 6)
    else if m.at(a) == 0xFF && m.at(a + 1) == 0x15 then (Rip(CallThrough, Sext32(Read32(m, a + 2))), 6)
    else if m.at(a) == 0x66 && m.at(a + 1) == 0x0F && m.at(a + 2) == 0x73 then (Plain(0), 5)
    else (Other, 1)
  }

  // ----- running -----

  datatype State = State(ip: nat, data: Data)

  /** Where an instruction sends control: to the next one, elsewhere, or into a call. */
  datatype Flow = Fall | Goto(target: nat) | CallTo(target: nat)

  /** Effect of instruction i whose successor is at next. */
  function Effect(cpu: Cpu, m: Mem, i: Insn, next: nat, d: Data): (Flow, Data) {
    match i
    case Jcc(cc, rel) => (if cpu.cond(cc, d) then Goto(U64(next + rel)) else Fall, d)
    case Jmp(rel) => (Goto(U64(next + rel)), d)
    case Call(rel) => (CallTo(U64(next + rel)), d)
    case Rip(use, disp) =>
      var a := U64(next + disp);
      (match use
       case Operate(op) => (Fall, cpu.operate(op, a, d))
       case JumpThrough => (Goto(Read64(m, a)), d)
       case CallThrough => (CallTo(Read64(m, a)), d))
    case Plain(op) => (Fall, cpu.plain(op, d))
    case Other => (Fall, d)
  }

  function Step(cpu: Cpu, m: Mem, s: State): State {
    var (i, n) := cpu.decode(m, s.ip);
    var next := U64(s.ip + n);
    var (flow, d) := Effect(cpu, m, i, next, s.data);
    match flow
    case Fall => State(next, d)
    case Goto(t) => State(t, d)
    case CallTo(t) => State(t, cpu.push(d, next))
  }

  function Steps(cpu: Cpu, m: Mem, s: State, n: nat): State
    decreases n
  {
    if n == 0 then s else Steps(cpu, m, Step(cpu, m, s), n - 1)
  }

  lemma {:induction false} StepsAdd(cpu: Cpu, m: Mem, s: State, a: nat, b: nat)
    ensures Steps(cpu, m, s, a + b) == Steps(cpu, m, Steps(cpu, m, s, a), b)
    decreases a
  {
    if a > 0 {
      StepsAdd(cpu, m, Step(cpu, m, s), a - 1, b);
    }
  }

  // ----- the jump to an absolute address -----

  /** jmp [rip + 0] with the target behind it. */
  function AbsoluteJump(t: nat): (r: seq<Byte>)
    requires t < TWO64
    ensures |r| == 14
  {
    [0xFF, 0x25] + Le32(0) + Le64(t)
  }

  lemma {:induction false} AbsoluteJumpRuns(cpu: Cpu, m: Mem, a: nat, t: nat, d: Data)
    requires ProperCpu(cpu) && t < TWO64 && a + 14 <= TWO64 && Holds(m, a, AbsoluteJump(t))
    ensures Step(cpu, m, State(a, d)) == State(t, d)
  {
    hide Le32, Le64, Read32, Read64, DecodesLocally, DecodesRip, Holds;
    HoldsSplit(m, a, [0xFF, 0x25] + Le32(0), Le64(t));
    HoldsSplit(m, a, [0xFF, 0x25], Le32(0));
    ByteAt(m, a, [0xFF, 0x25], 0);
    ByteAt(m, a, [0xFF, 0x25], 1);
    Read32Back(m, a + 2, 0);
    Read64Back(m, a + 6, t);
  }
}
