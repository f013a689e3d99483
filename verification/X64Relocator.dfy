/** The x64 relocator, one instruction: what GenRelocateSingleX86Insn emits, and that running it
    follows the original instruction. */
module X64Relocator {
  import opened X64Machine

  /** What x86_insn_decode reports of an instruction. */
  datatype Decoded = Decoded(length: nat, primary: Byte, ripRelative: bool, disp: int, dispOffset: nat, immediate: int, immOffset: nat)

  // ----- one instruction -----

  datatype Shape = JccRel8 | RipRelative | JmpRel8 | BranchRel32 | Unsupported | Copied

  /** The order in which the code asks. */
  function ShapeOf(d: Decoded): Shape {
    if 0x70 <= d.primary <= 0x7F then JccRel8
    else if d.ripRelative then RipRelative
    else if d.primary == 0xEB then JmpRel8
    else if d.primary == 0xE8 || d.primary == 0xE9 then BranchRel32
    else if 0xE0 <= d.primary <= 0xE3 then Unsupported
    else Copied
  }

  /** orig_dst_ip of the relative branches and of the RIP-relative operand. */
  function Target(d: Decoded, next: nat): nat {
    match ShapeOf(d)
    case RipRelative => U64(next + d.disp)
    case BranchRel32 => U64(next + Sext32(d.immediate))
    case _ => U64(next + Sext8(d.immediate))
  }

  /** The bytes that replace the instruction bs, whose successor was at next; seqAddr is where the
      side sequence of a RIP-relative instruction lies. */
  function Emit(d: Decoded, bs: seq<Byte>, next: nat, seqAddr: nat): (r: seq<Byte>)
    requires d.length <= |bs| && seqAddr < TWO64
    ensures |r| == EmitSize(d)
  {
    match ShapeOf(d)
    case JccRel8 => [d.primary, 2] + [0xEB, 14] + AbsoluteJump(Target(d, next))
    case RipRelative => AbsoluteJump(seqAddr)
    case JmpRel8 => AbsoluteJump(Target(d, next))
    case BranchRel32 =>
      if d.primary == 0xE8 then [0xFF, 0x15] + Le32(2) + [0xEB, 8] + Le64(Target(d, next)) else AbsoluteJump(Target(d, next))
    case Unsupported => []
    case Copied => bs[..d.length]
  }

  /** How many bytes that is, whatever the addresses are. */
  function EmitSize(d: Decoded): nat {
    match ShapeOf(d)
    case JccRel8 => 18
    case RipRelative => 14
    case JmpRel8 => 14
    case BranchRel32 => if d.primary == 0xE8 then 16 else 14
    case Unsupported => 0
    case Copied => d.length
  }

  /** The side sequence: the instruction with a new displacement, then a jump to `back`. */
  function SideSequence(d: Decoded, bs: seq<Byte>, next: nat, seqAddr: nat, back: nat): seq<Byte>
    requires d.length <= |bs| && d.dispOffset <= d.length && d.immOffset <= d.length && back < TWO64
  {
    bs[..d.dispOffset] + Le32((Target(d, next) - (seqAddr + d.length)) % TWO32)
      + (if d.immOffset != 0 then bs[d.immOffset..d.length] else []) + AbsoluteJump(back)
  }

  /** The short conditional jumps, loopnz, loopz, loop and jcxz, call, and the two direct jumps. */
  predicate IsBranchByte(p: Byte) { 0x70 <= p <= 0x7F || 0xE0 <= p <= 0xE3 || p == 0xE8 || p == 0xE9 || p == 0xEB }

  /** The instructions at which a pass gives up. */
  predicate IsLoop(d: Decoded) { 0xE0 <= d.primary <= 0xE3 && !d.ripRelative }

  /** The decoder's report describes the instruction i of n bytes bs, and i is one that the
      relocator handles. A two-byte opcode whose second byte looks like a branch is not. */
  ghost predicate Describes(d: Decoded, bs: seq<Byte>, i: Insn, n: nat) {
    && 0 < n == d.length <= |bs|
    && match i
       case Jcc(cc, rel) => cc < 16 && d.primary == 0x70 + cc && rel == Sext8(d.immediate)
       case Jmp(rel) =>
         && !d.ripRelative
         && ((d.primary == 0xEB && rel == Sext8(d.immediate)) || (d.primary == 0xE9 && rel == Sext32(d.immediate)))
       case Call(rel) => !d.ripRelative && d.primary == 0xE8 && rel == Sext32(d.immediate)
       case Rip(_, disp) =>
         && d.ripRelative && !(0x70 <= d.primary <= 0x7F) && d.disp == disp == Sext32(disp) && d.dispOffset + 4 <= n
         && (if d.immOffset == 0 then d.dispOffset + 4 == n else d.immOffset == d.dispOffset + 4)
       case Plain(_) => !d.ripRelative && !IsBranchByte(d.primary)
       case Other => false
  }

  /** The relocated code for the instruction is at relo and, for a RIP-relative one, the side
      sequence at seqAddr, near enough for its displacement. */
  ghost predicate Placed(m: Mem, d: Decoded, bs: seq<Byte>, next: nat, relo: nat, seqAddr: nat) {
    && d.length <= |bs| && seqAddr < TWO64
    && relo + EmitSize(d) < TWO64 && Holds(m, relo, Emit(d, bs, next, seqAddr))
    && (ShapeOf(d) == RipRelative ==>
          && d.dispOffset <= d.length && d.immOffset <= d.length && seqAddr + d.length + 14 <= TWO64
          && Holds(m, seqAddr, SideSequence(d, bs, next, seqAddr, relo + 14))
          && -0x8000_0000 <= Target(d, next) - (seqAddr + d.length) <= 0x7FFF_FFFF)
  }

  /** The original: at orig the processor decodes i of n bytes, which the report d describes. */
  ghost predicate Original(cpu: Cpu, m0: Mem, orig: nat, d: Decoded, bs: seq<Byte>, i: Insn, n: nat) {
    && cpu.decode(m0, orig) == (i, n) && Describes(d, bs, i, n) && Holds(m0, orig, bs[..n])
    && (i.Rip? ==> d.dispOffset == cpu.dispOffset(m0, orig))
  }

  /** Where a relocated call returns to. */
  function ReturnPoint(d: Decoded, relo: nat, seqAddr: nat): nat {
    if ShapeOf(d) == RipRelative then seqAddr + d.length else relo + 6
  }

  /** How many instructions stand for the original one. */
  function StepsFor(d: Decoded, flow: Flow): nat {
    match ShapeOf(d)
    case JccRel8 => 2
    case RipRelative => if flow == Fall then 3 else 2
    case _ => 1
  }

  /** What the relocated instruction does when the original one does flow with data d' after: fall
      to the code behind it, jump to the same target, or call it with a return address that leads
      behind the relocated code. */
  ghost predicate Follows(cpu: Cpu, m: Mem, d: Decoded, relo: nat, seqAddr: nat, before: Data, flow: Flow, after: Data) {
    var s := Steps(cpu, m, State(relo, before), StepsFor(d, flow));
    match flow
    case Fall => s == State(relo + EmitSize(d), after)
    case Goto(t) => s == State(t, after)
    case CallTo(t) =>
      && s == State(t, cpu.push(after, ReturnPoint(d, relo, seqAddr)))
      && LeadsTo(cpu, m, ReturnPoint(d, relo, seqAddr), relo + EmitSize(d))
  }

  /** Whoever comes to a, with whatever data, goes on at b. */
  ghost predicate LeadsTo(cpu: Cpu, m: Mem, a: nat, b: nat) {
    forall s: State :: s.ip == a ==> Step(cpu, m, s) == State(b, s.data)
  }

  /** jmp rel8 over the next bytes. */
  lemma {:induction false} SkipLeads(cpu: Cpu, m: Mem, a: nat, n: Byte)
    requires ProperCpu(cpu) && n < 0x80 && a + 2 + n < TWO64 && Holds(m, a, [0xEB, n])
    ensures LeadsTo(cpu, m, a, a + 2 + n)
  {
    hide DecodesLocally, DecodesRip, Holds;
    ByteAt(m, a, [0xEB, n], 0);
    ByteAt(m, a, [0xEB, n], 1);
    assert cpu.decode(m, a) == (Jmp(n), 2);
  }

  lemma {:induction false} JumpLeads(cpu: Cpu, m: Mem, a: nat, t: nat)
    requires ProperCpu(cpu) && t < TWO64 && a + 14 <= TWO64 && Holds(m, a, AbsoluteJump(t))
    ensures LeadsTo(cpu, m, a, t)
  {
    hide ProperCpu, Holds, AbsoluteJump, Step;
    forall s: State | s.ip == a ensures Step(cpu, m, s) == State(t, s.data) {
      AbsoluteJumpRuns(cpu, m, a, t, s.data);
      assert s == State(a, s.data);
    }
  }

  lemma {:induction false} JccStep(cpu: Cpu, m: Mem, a: nat, p: Byte, x: Data)
    requires ProperCpu(cpu) && 0x70 <= p <= 0x7F && a + 4 < TWO64 && Holds(m, a, [p, 2])
    ensures Step(cpu, m, State(a, x)) == State(if cpu.cond(p - 0x70, x) then a + 4 else a + 2, x)
  {
    hide DecodesLocally, DecodesRip, Holds;
    ByteAt(m, a, [p, 2], 0);
    ByteAt(m, a, [p, 2], 1);
    assert cpu.decode(m, a) == (Jcc(p - 0x70, 2), 2);
  }

  /** call [rip + 2] to the address behind the skip. */
  lemma {:induction false} CallStep(cpu: Cpu, m: Mem, a: nat, t: nat, x: Data)
    requires ProperCpu(cpu) && t < TWO64 && a + 16 < TWO64
    requires Holds(m, a, [0xFF, 0x15]) && Holds(m, a + 2, Le32(2)) && Holds(m, a + 8, Le64(t))
    ensures Step(cpu, m, State(a, x)) == State(t, cpu.push(x, a + 6))
  {
    hide DecodesLocally, DecodesRip, Holds, Le32, Le64, Read32, Read64;
    ByteAt(m, a, [0xFF, 0x15], 0);
    ByteAt(m, a, [0xFF, 0x15], 1);
    Read32Back(m, a + 2, 2);
    Read64Back(m, a + 8, t);
    assert cpu.decode(m, a) == (Rip(CallThrough, 2), 6);
  }

  lemma OneStep(cpu: Cpu, m: Mem, s: State)
    ensures Steps(cpu, m, s, 1) == Step(cpu, m, s)
    ensures Steps(cpu, m, s, 2) == Step(cpu, m, Step(cpu, m, s))
    ensures Steps(cpu, m, s, 3) == Step(cpu, m, Step(cpu, m, Step(cpu, m, s)))
  {
    assert Steps(cpu, m, s, 2) == Steps(cpu, m, Step(cpu, m, s), 1);
    assert Steps(cpu, m, s, 3) == Steps(cpu, m, Step(cpu, m, s), 2);
  }

  /** What the four parts do, whatever the instruction was: go to the target that the report names
      on the condition of its opcode byte, else go on behind them. */
  lemma {:induction false} JccRuns(cpu: Cpu, m: Mem, d: Decoded, bs: seq<Byte>, next: nat, relo: nat, seqAddr: nat, x: Data)
    requires ProperCpu(cpu) && ShapeOf(d) == JccRel8 && Placed(m, d, bs, next, relo, seqAddr)
    ensures Steps(cpu, m, State(relo, x), 2) == State(if cpu.cond(d.primary - 0x70, x) then Target(d, next) else relo + 18, x)
  {
    hide ProperCpu, Holds, Steps, Step, AbsoluteJump;
    var t := Target(d, next);
    HoldsSplit(m, relo, [d.primary, 2] + [0xEB, 14], AbsoluteJump(t));
    HoldsSplit(m, relo, [d.primary, 2], [0xEB, 14]);
    JccStep(cpu, m, relo, d.primary, x);
    SkipLeads(cpu, m, relo + 2, 14);
    JumpLeads(cpu, m, relo + 4, t);
    OneStep(cpu, m, State(relo, x));
  }

  lemma {:induction false} JccFollows(cpu: Cpu, m: Mem, d: Decoded, bs: seq<Byte>, i: Insn, n: nat, next: nat, relo: nat, seqAddr: nat, x: Data)
    requires ProperCpu(cpu) && Describes(d, bs, i, n) && i.Jcc? && next < TWO64 && Placed(m, d, bs, next, relo, seqAddr)
    ensures var (flow, x') := Effect(cpu, m, i, next, x); Follows(cpu, m, d, relo, seqAddr, x, flow, x')
  {
    hide ProperCpu, Steps, Placed;
    JccRuns(cpu, m, d, bs, next, relo, seqAddr, x);
  }

  // ----- two-byte opcodes, which the report describes by their second byte -----

  /** An instruction that does not jump, read as a short conditional jump: what is emitted follows it
      if and only if the instruction does nothing and the jump, where it is taken, ends up behind the
      emitted code. */
  lemma {:induction false} MisreadExact(cpu: Cpu, m: Mem, d: Decoded, bs: seq<Byte>, next: nat, relo: nat, seqAddr: nat, x: Data, x': Data)
    requires ProperCpu(cpu) && ShapeOf(d) == JccRel8 && Placed(m, d, bs, next, relo, seqAddr)
    ensures Follows(cpu, m, d, relo, seqAddr, x, Fall, x') <==> x' == x && (cpu.cond(d.primary - 0x70, x) ==> Target(d, next) == relo + 18)
  {
    hide ProperCpu, Steps, Placed;
    JccRuns(cpu, m, d, bs, next, relo, seqAddr, x);
  }

  /** The report of 0F 71, 0F 72 or 0F 73, the shifts by a constant, behind its prefixes: it ends with
      the opcode, so that the two bytes behind it are left over, and has no operands. */
  ghost predicate IsShiftByCount(d: Decoded, bs: seq<Byte>) {
    && 2 <= d.length && d.length + 2 <= |bs| && bs[d.length - 2] == 0x0F
    && 0x71 <= bs[d.length - 1] == d.primary <= 0x73
    && !d.ripRelative && d.immediate == 0
  }

  /** Such a shift of d.length + 2 bytes at orig: on a condition that has nothing to do with it, the
      emitted code jumps to the shift's own ModRM byte, or falls out at relo + 18, with nothing
      shifted. So it follows the shift if and only if that changes nothing and a taken jump happens to
      lead to relo + 18. The loop goes on at the ModRM byte as well. */
  lemma {:induction false} ShiftExact(cpu: Cpu, m0: Mem, orig: nat, m: Mem, d: Decoded, bs: seq<Byte>, op: nat, relo: nat, seqAddr: nat, x: Data)
    requires ProperCpu(cpu) && IsShiftByCount(d, bs) && orig + d.length < TWO64
    requires cpu.decode(m0, orig) == (Plain(op), d.length + 2) && Placed(m, d, bs, orig + d.length, relo, seqAddr)
    ensures Steps(cpu, m, State(relo, x), 2) == State(if cpu.cond(d.primary - 0x70, x) then orig + d.length else relo + 18, x)
    ensures var (flow, x') := Effect(cpu, m0, cpu.decode(m0, orig).0, U64(orig + d.length + 2), x);
      Follows(cpu, m, d, relo, seqAddr, x, flow, x') <==> x' == x && (cpu.cond(d.primary - 0x70, x) ==> orig + d.length == relo + 18)
  {
    hide ProperCpu, Placed, Follows, Steps;
    assert ShapeOf(d) == JccRel8 && Target(d, orig + d.length) == orig + d.length;
    JccRuns(cpu, m, d, bs, orig + d.length, relo, seqAddr, x);
    MisreadExact(cpu, m, d, bs, orig + d.length, relo, seqAddr, x, cpu.plain(op, x));
  }

  /** How jcc rel32 decodes (0F 80 to 0F 8F). */
  ghost predicate DecodesNearJcc(cpu: Cpu) {
    forall m: Mem, a: nat :: m.at(a) == 0x0F && 0x80 <= m.at(a + 1) <= 0x8F ==>
      cpu.decode(m, a) == (Jcc(m.at(a + 1) - 0x80, Sext32(Read32(m, a + 2))), 6)
  }

  /** The report of a jcc rel32 with the bytes bs. */
  ghost predicate IsNearJcc(d: Decoded, bs: seq<Byte>) {
    d.length == 6 <= |bs| && bs[0] == 0x0F && 0x80 <= bs[1] == d.primary <= 0x8F && !d.ripRelative
  }

  /** jcc rel32 is copied with its displacement, so the relocated jump is off by as much as the code
      has moved: it follows the original if and only if the jump is not taken or nothing moved. */
  lemma {:induction false} CopiedJccExact(cpu: Cpu, m0: Mem, orig: nat, m: Mem, d: Decoded, bs: seq<Byte>, relo: nat, seqAddr: nat, x: Data)
      returns (rel: int)
    requires DecodesNearJcc(cpu) && IsNearJcc(d, bs) && orig + 6 < TWO64
    requires Holds(m0, orig, bs[..6]) && Placed(m, d, bs, orig + 6, relo, seqAddr)
    ensures cpu.decode(m0, orig) == (Jcc(d.primary - 0x80, rel), 6)
    ensures Step(cpu, m, State(relo, x)) == State(if cpu.cond(d.primary - 0x80, x) then U64(relo + 6 + rel) else relo + 6, x)
    ensures var (flow, x') := Effect(cpu, m0, Jcc(d.primary - 0x80, rel), orig + 6, x);
      Follows(cpu, m, d, relo, seqAddr, x, flow, x') <==> flow == Fall || relo == orig
  {
    hide Steps, Read32, Holds, U64, Step;
    assert ShapeOf(d) == Copied && Emit(d, bs, orig + 6, seqAddr) == bs[..6];
    rel := SameJcc(cpu, m0, orig, m, d, bs, relo);
    CopiedJccStep(cpu, m, relo, d.primary - 0x80, rel, x);
    OneStep(cpu, m, State(relo, x));
    U64Shift(relo + 6 + rel, orig + 6 + rel);
  }

  lemma CopiedJccStep(cpu: Cpu, m: Mem, relo: nat, cc: nat, rel: int, x: Data)
    requires cpu.decode(m, relo) == (Jcc(cc, rel), 6) && relo + 6 < TWO64
    ensures Step(cpu, m, State(relo, x)) == State(if cpu.cond(cc, x) then U64(relo + 6 + rel) else relo + 6, x)
  {
  }

  lemma U64Shift(a: int, b: int)
    requires -TWO64 < a - b < TWO64
    ensures U64(a) == U64(b) <==> a == b
  {
  }

  lemma {:induction false} SameJcc(cpu: Cpu, m0: Mem, orig: nat, m: Mem, d: Decoded, bs: seq<Byte>, relo: nat) returns (rel: int)
    requires DecodesNearJcc(cpu) && IsNearJcc(d, bs) && Holds(m0, orig, bs[..6]) && Holds(m, relo, bs[..6])
    ensures cpu.decode(m0, orig) == cpu.decode(m, relo) == (Jcc(d.primary - 0x80, rel), 6)
  {
    hide Holds, Sext32;
    rel := Sext32(Read32(m, relo + 2));
    SameByte(m0, orig, m, relo, bs[..6], 0);
    SameByte(m0, orig, m, relo, bs[..6], 1);
    SameByte(m0, orig, m, relo, bs[..6], 2);
    SameByte(m0, orig, m, relo, bs[..6], 3);
    SameByte(m0, orig, m, relo, bs[..6], 4);
    SameByte(m0, orig, m, relo, bs[..6], 5);
  }

  lemma {:induction false} SameByte(m0: Mem, a: nat, m: Mem, b: nat, bs: seq<Byte>, k: nat)
    requires Holds(m0, a, bs) && Holds(m, b, bs) && k < |bs|
    ensures m0.at(a + k) == m.at(b + k) == bs[k]
  {
    ByteAt(m0, a, bs, k);
    ByteAt(m, b, bs, k);
  }

  lemma {:induction false} JmpFollows(cpu: Cpu, m: Mem, d: Decoded, bs: seq<Byte>, i: Insn, n: nat, next: nat, relo: nat, seqAddr: nat, x: Data)
    requires ProperCpu(cpu) && Describes(d, bs, i, n) && i.Jmp? && next < TWO64 && Placed(m, d, bs, next, relo, seqAddr)
    ensures var (flow, x') := Effect(cpu, m, i, next, x); Follows(cpu, m, d, relo, seqAddr, x, flow, x')
  {
    hide ProperCpu, Holds, Steps, AbsoluteJump;
    AbsoluteJumpRuns(cpu, m, relo, Target(d, next), x);
    OneStep(cpu, m, State(relo, x));
  }

  lemma {:induction false} CallFollows(cpu: Cpu, m: Mem, d: Decoded, bs: seq<Byte>, i: Insn, n: nat, next: nat, relo: nat, seqAddr: nat, x: Data)
    requires ProperCpu(cpu) && Describes(d, bs, i, n) && i.Call? && next < TWO64 && Placed(m, d, bs, next, relo, seqAddr)
    ensures var (flow, x') := Effect(cpu, m, i, next, x); Follows(cpu, m, d, relo, seqAddr, x, flow, x')
  {
    hide ProperCpu, Holds, Steps, Step, Le32, Le64;
    var t := Target(d, next);
    HoldsSplit(m, relo, [0xFF, 0x15] + Le32(2) + [0xEB, 8], Le64(t));
    HoldsSplit(m, relo, [0xFF, 0x15] + Le32(2), [0xEB, 8]);
    HoldsSplit(m, relo, [0xFF, 0x15], Le32(2));
    CallStep(cpu, m, relo, t, x);
    SkipLeads(cpu, m, relo + 6, 8);
    OneStep(cpu, m, State(relo, x));
  }

  lemma {:induction false} PlainFollows(cpu: Cpu, m0: Mem, orig: nat, m: Mem, d: Decoded, bs: seq<Byte>, i: Insn, n: nat, next: nat,
      relo: nat, seqAddr: nat, x: Data)
    requires ProperCpu(cpu) && Original(cpu, m0, orig, d, bs, i, n) && i.Plain? && next < TWO64 && Placed(m, d, bs, next, relo, seqAddr)
    ensures var (flow, x') := Effect(cpu, m, i, next, x); Follows(cpu, m, d, relo, seqAddr, x, flow, x')
  {
    hide DecodesBranches, DecodesRip, Steps;
    assert SameBytes(m0, orig, m, relo, n);
    OneStep(cpu, m, State(relo, x));
  }

  lemma Sext32Back(v: int)
    requires -0x8000_0000 <= v <= 0x7FFF_FFFF
    ensures Sext32(v % TWO32) == v
  {
    assert v % TWO32 == if v >= 0 then v else v + TWO32;
  }

  /** The moved instruction in the side sequence has the same operand address. */
  lemma {:induction false} SideInsn(cpu: Cpu, m0: Mem, orig: nat, m: Mem, d: Decoded, bs: seq<Byte>, i: Insn, n: nat, next: nat,
      relo: nat, seqAddr: nat)
    requires ProperCpu(cpu) && Original(cpu, m0, orig, d, bs, i, n) && i.Rip? && next < TWO64 && Placed(m, d, bs, next, relo, seqAddr)
    ensures cpu.decode(m, seqAddr).0.Rip? && cpu.decode(m, seqAddr).0.use == i.use && cpu.decode(m, seqAddr).1 == n
    ensures U64(seqAddr + n + cpu.decode(m, seqAddr).0.disp) == U64(next + i.disp)
    ensures Holds(m, seqAddr + n, AbsoluteJump(relo + 14))
  {
    hide DecodesBranches, DecodesLocally, Holds, AbsoluteJump, Le32, Read32, Sext32;
    Sext32Back(Target(d, next) - (seqAddr + n));
    var o, t := d.dispOffset, Target(d, next);
    var disp := (t - (seqAddr + n)) % TWO32;
    var tail := if d.immOffset != 0 then bs[d.immOffset..n] else [];
    assert tail == bs[o + 4..n];
    HoldsSplit(m, seqAddr, bs[..o] + Le32(disp) + tail, AbsoluteJump(relo + 14));
    HoldsSplit(m, seqAddr, bs[..o] + Le32(disp), tail);
    HoldsSplit(m, seqAddr, bs[..o], Le32(disp));
    Read32Back(m, seqAddr + o, disp);
    assert bs[..n] == bs[..o] + (bs[o..o + 4] + bs[o + 4..n]);
    HoldsSplit(m0, orig, bs[..o], bs[o..o + 4] + bs[o + 4..n]);
    HoldsSplit(m0, orig + o, bs[o..o + 4], bs[o + 4..n]);
    SameHeld(m0, orig, m, seqAddr, bs[..o]);
    SameHeld(m0, orig + (o + 4), m, seqAddr + (o + 4), tail);
    assert RipMoved(cpu.decode(m0, orig).0, cpu.decode(m0, orig).1, cpu.dispOffset(m0, orig), m0, orig, m, seqAddr);
  }

  lemma {:induction false} SameHeld(m1: Mem, a: nat, m2: Mem, b: nat, bs: seq<Byte>)
    requires Holds(m1, a, bs) && Holds(m2, b, bs)
    ensures SameBytes(m1, a, m2, b, |bs|)
  {
  }

  lemma {:induction false} RipFollows(cpu: Cpu, m0: Mem, orig: nat, m: Mem, d: Decoded, bs: seq<Byte>, i: Insn, n: nat, next: nat,
      relo: nat, seqAddr: nat, x: Data)
    requires ProperCpu(cpu) && Original(cpu, m0, orig, d, bs, i, n) && i.Rip? && next < TWO64 && Placed(m, d, bs, next, relo, seqAddr)
    ensures var (flow, x') := Effect(cpu, m, i, next, x); Follows(cpu, m, d, relo, seqAddr, x, flow, x')
  {
    SideInsn(cpu, m0, orig, m, d, bs, i, n, next, relo, seqAddr);
    assert n == d.length && ShapeOf(d) == RipRelative && seqAddr + n + 14 <= TWO64;
    assert Holds(m, relo, AbsoluteJump(seqAddr)) && relo + 14 < TWO64;
    hide Original, Placed, Describes, ShapeOf;
    RipLeads(cpu, m, d, i, n, next, relo, seqAddr, x);
  }

  lemma {:induction false} RipLeads(cpu: Cpu, m: Mem, d: Decoded, i: Insn, n: nat, next: nat, relo: nat, seqAddr: nat, x: Data)
    requires ProperCpu(cpu) && i.Rip? && n == d.length && ShapeOf(d) == RipRelative && seqAddr + n + 14 <= TWO64 && relo + 14 < TWO64
    requires Holds(m, relo, AbsoluteJump(seqAddr)) && Holds(m, seqAddr + n, AbsoluteJump(relo + 14))
    requires cpu.decode(m, seqAddr).0.Rip? && cpu.decode(m, seqAddr).0.use == i.use && cpu.decode(m, seqAddr).1 == n
    requires U64(seqAddr + n + cpu.decode(m, seqAddr).0.disp) == U64(next + i.disp)
    ensures var (flow, x') := Effect(cpu, m, i, next, x); Follows(cpu, m, d, relo, seqAddr, x, flow, x')
  {
    hide ProperCpu, Holds, Steps, Step, AbsoluteJump, Effect;
    SideStep(cpu, m, i, n, next, seqAddr, x);
    JumpLeads(cpu, m, relo, seqAddr);
    JumpLeads(cpu, m, seqAddr + n, relo + 14);
    OneStep(cpu, m, State(relo, x));
  }

  /** It has the same effect, and its own successor. */
  lemma {:induction false} SideStep(cpu: Cpu, m: Mem, i: Insn, n: nat, next: nat, seqAddr: nat, x: Data)
    requires i.Rip? && seqAddr + n < TWO64
    requires cpu.decode(m, seqAddr).0.Rip? && cpu.decode(m, seqAddr).0.use == i.use && cpu.decode(m, seqAddr).1 == n
    requires U64(seqAddr + n + cpu.decode(m, seqAddr).0.disp) == U64(next + i.disp)
    ensures var (flow, x') := Effect(cpu, m, i, next, x);
      Step(cpu, m, State(seqAddr, x)) == match flow
        case Fall => State(seqAddr + n, x')
        case Goto(t) => State(t, x')
        case CallTo(t) => State(t, cpu.push(x', seqAddr + n))
  {
    hide Read64;
    assert U64(seqAddr + n) == seqAddr + n;
  }

  /** Every handled instruction is followed by its relocation. */
  lemma {:induction false} InsnFollows(cpu: Cpu, m0: Mem, orig: nat, m: Mem, d: Decoded, bs: seq<Byte>, i: Insn, n: nat, next: nat,
      relo: nat, seqAddr: nat, x: Data)
    requires ProperCpu(cpu) && Original(cpu, m0, orig, d, bs, i, n) && next < TWO64 && Placed(m, d, bs, next, relo, seqAddr)
    ensures var (flow, x') := Effect(cpu, m, i, next, x); Follows(cpu, m, d, relo, seqAddr, x, flow, x')
  {
    hide ProperCpu, Placed, Follows, Effect;
    match i {
      case Jcc(_, _) => JccFollows(cpu, m, d, bs, i, n, next, relo, seqAddr, x);
      case Jmp(_) => JmpFollows(cpu, m, d, bs, i, n, next, relo, seqAddr, x);
      case Call(_) => CallFollows(cpu, m, d, bs, i, n, next, relo, seqAddr, x);
      case Rip(_, _) => RipFollows(cpu, m0, orig, m, d, bs, i, n, next, relo, seqAddr, x);
      case Plain(_) => PlainFollows(cpu, m0, orig, m, d, bs, i, n, next, relo, seqAddr, x);
    }
  }
}
