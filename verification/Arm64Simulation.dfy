/** The relocated block behaves as the original prologue did. */
module Arm64Simulation {
  import opened Arm64Isa
  import opened Arm64Codec
  import opened Arm64Assembler
  import opened Arm64Relocator
  import opened Arm64Layout

  // ----- the two programs -----

  ghost predicate CodeAt(mem: Mem, base: nat, ws: seq<Word>) {
    forall p :: 0 <= p < |ws| ==> Read32(mem, base + 4 * p) == ws[p]
  }

  /** One step of whatever instruction memory holds at the program counter. */
  function Step(eff: Effect, s: State): State {
    var i := Decode(Read32(s.m.mem, s.pc));
    DecodeFields(Read32(s.m.mem, s.pc));
    Exec(eff, i, s.m, s.pc, s.m.mem)
  }

  function Run(eff: Effect, n: nat, s: State): State {
    if n == 0 then s else Run(eff, n - 1, Step(eff, s))
  }

  lemma {:induction false} RunAdd(eff: Effect, a: nat, b: nat, s: State)
    ensures Run(eff, a + b, s) == Run(eff, b, Run(eff, a, s))
  {
    hide Step;
    if a > 0 {
      RunAdd(eff, a - 1, b, Step(eff, s));
    }
  }

  function ByteOf(w: Word, i: nat): Byte {
    if i == 0 then w % 256
    else if i == 1 then w / 256 % 256
    else if i == 2 then w / 0x1_0000 % 256
    else w / 0x100_0000
  }

  /** Memory as the original saw it: the patched range still holds the original words. */
  function OrigView(mem: Mem, orig: seq<Word>, src: nat): Mem {
    (a: nat) => if src <= a < src + 4 * |orig| then ByteOf(orig[(a - src) / 4], (a - src) % 4) else mem(a)
  }

  predicate Taken(i: Insn, m: Machine) {
    match i
    case B(_) => true
    case BL(_) => true
    case Br(_) => true
    case Blr(_) => true
    case Ret(_) => true
    case BCond(cond, _) => CondHolds(cond, m.nzcv)
    case CmpB(_, _, _, _) => TestHolds(i, m)
    case TestB(_, _, _, _) => TestHolds(i, m)
    case _ => false
  }

  predicate Links(i: Insn) { i.BL? || i.Blr? }

  /** The original instruction k, executed at its own address. */
  function OrigStep(eff: Effect, orig: seq<Word>, src: Addr, k: nat, m: Machine): State
    requires k < |orig|
  {
    DecodeFields(orig[k]);
    Exec(eff, Decode(orig[k]), m, Target(src, 4 * k), OrigView(m.mem, orig, src))
  }

  /** How a run leaves the block: where to, and after which instruction. */
  datatype Exit = Exit(s: State, linked: bool, next: nat)

  /** The original from instruction k until control leaves the straight line. */
  function RunBlock(eff: Effect, orig: seq<Word>, src: Addr, k: nat, m: Machine): Exit
    requires k <= |orig|
    decreases |orig| - k
  {
    if k == |orig| then Exit(State(m, Target(src, 4 * k)), false, k)
    else
      var s := OrigStep(eff, orig, src, k, m);
      var i := Decode(orig[k]);
      if Taken(i, m) then Exit(s, Links(i), k + 1) else RunBlock(eff, orig, src, k + 1, s.m)
  }

  // ----- the relations -----

  /** Equal except for x17, the assembler's scratch register. */
  ghost predicate Rel(o: Machine, r: Machine) { r == o.(x := o.x[17 := r.x[17]]) }

  function Image4(orig: seq<Word>, src: Addr, dst: nat, k: nat): nat
    requires k <= |orig|
  {
    dst + 4 * |Items(orig, src, k)|
  }

  /** The relocated run has left too: same address, same machine but for x17, and after a
      call the link register holds the image of the original return address. */
  ghost predicate RelExit(orig: seq<Word>, src: Addr, dst: nat, e: Exit, r: State)
    requires e.next <= |orig|
  {
    && r.pc == e.s.pc
    && if e.linked then
         var back := Image4(orig, src, dst, e.next);
         back < TWO64 && Rel(SetReg(e.s.m, 30, back), r.m)
       else Rel(e.s.m, r.m)
  }

  // ----- when one instruction is relocated faithfully -----

  ghost predicate Clear(a: nat, size: nat, src: nat, n: nat) { a + size <= src || src + 4 * n <= a }

  ghost predicate Faithful(i: Insn, m: Machine, pc: Addr, src: Addr, n: nat) {
    match i
    case LdrLitW(rt, off) =>
      Clear(Target(pc, off), 4, src, n) && (rt == 31 || rt == 17 || Read32(m.mem, Target(pc, off) + 4) == 0)
    case LdrLitX(rt, off) => Clear(Target(pc, off), 8, src, n)
    case LdrLitOther(_) => false
    case Unallocated(_) => false
    case BCond(cond, _) => cond < 14
    case CmpB(_, _, rt, _) => rt != 17
    case TestB(_, _, rt, _) => rt != 17
    case LdrX(_, rn, _) => rn != 17
    case Br(rn) => rn != 17
    case Blr(rn) => rn != 17
    case Ret(rn) => rn != 17
    case _ => true
  }

  /** An unmodelled instruction neither depends on x17 nor passes it on. */
  ghost predicate Tame(eff: Effect, w: Word) {
    forall o, r :: Rel(o, r) ==> Rel(eff(w, o), eff(w, r))
  }

  /** Executed in m, an unmodelled instruction leaves the relocated block alone. */
  ghost predicate Spares(eff: Effect, orig: seq<Word>, src: Addr, branch: bool, dst: nat, k: nat, m: Machine)
    requires k < |orig|
  {
    Decode(orig[k]).Other? ==> CodeAt(eff(orig[k], m).mem, dst, Image(AllItems(orig, src, branch)))
  }

  // ----- running pieces of the block -----

  /** Template k sits in the block from item |Items(k)| on. */
  lemma {:induction false} TemplateAt(orig: seq<Word>, src: Addr, branch: bool, k: nat, n: nat)
    requires k < n <= |orig|
    ensures |Items(orig, src, k + 1)| <= |Items(orig, src, n)|
    ensures Items(orig, src, n)[..|Items(orig, src, k + 1)|] == Items(orig, src, k + 1)
    decreases n
  {
    hide Template;
    if k + 1 < n {
      TemplateAt(orig, src, branch, k, n - 1);
    }
  }

  ghost predicate Has(items: seq<Item>, p: nat, part: seq<Item>) {
    p + |part| <= |items| && items[p..p + |part|] == part
  }

  lemma {:induction false} BlockHasTemplate(orig: seq<Word>, src: Addr, branch: bool, k: nat)
    requires k < |orig|
    ensures Has(AllItems(orig, src, branch), |Items(orig, src, k)|, Template(orig[k], Target(src, 4 * k)))
  {
    hide Template;
    TemplateAt(orig, src, branch, k, |orig|);
    var all, upTo := AllItems(orig, src, branch), Items(orig, src, k + 1);
    assert all[..|upTo|] == upTo;
    var p := |Items(orig, src, k)|;
    assert all[p..|upTo|] == upTo[p..] == Template(orig[k], Target(src, 4 * k));
  }

  /** The block is in memory at dst and short enough for its literal loads. */
  ghost predicate Loaded(items: seq<Item>, mem: Mem, dst: nat) {
    && CodeAt(mem, dst, Image(items))
    && dst + 4 * |Image(items)| < TWO64
    && 4 * |Image(items)| < 0x10_0000
  }

  lemma {:induction false} StepRaw(eff: Effect, items: seq<Item>, dst: nat, p: nat, m: Machine)
    requires Loaded(items, m.mem, dst) && p < |items| && items[p].Raw?
    ensures dst + 4 * p < TWO64
    ensures Read32(m.mem, dst + 4 * p) == items[p].w
  {
    hide Image, Decode, Step;
    RawInImage(items, p);
  }

  /** The literal load puts the label's value into x17. */
  lemma {:induction false} StepLoad(eff: Effect, items: seq<Item>, dst: nat, p: nat, m: Machine)
    requires Loaded(items, m.mem, dst) && p < |items| && items[p].LoadLit?
    ensures dst + 4 * p + 4 < TWO64
    ensures Step(eff, State(m, dst + 4 * p)) == State(SetReg(m, 17, items[p].value), dst + 4 * p + 4)
  {
    hide Image, Decode;
    LoadInImage(items, p);
    var slot := |items| + 2 * LitIndex(items, p);
    assert Read32(m.mem, dst + 4 * p) == Image(items)[p];
    assert Read32(m.mem, dst + 4 * slot) == Image(items)[slot];
    assert Read32(m.mem, dst + 4 * (slot + 1)) == Image(items)[slot + 1];
    TargetNear(dst + 4 * p, 4 * slot - 4 * p);
    TargetNear(dst + 4 * p, 4);
    assert Read64(m.mem, dst + 4 * slot) == items[p].value;
  }

  lemma TargetNear(pc: Addr, off: int)
    requires 0 <= pc + off < TWO64
    ensures Target(pc, off) == pc + off
  {}

  lemma Run2(eff: Effect, s: State)
    ensures Run(eff, 2, s) == Step(eff, Step(eff, s))
  {
    hide Step;
    assert Run(eff, 1, Step(eff, s)) == Run(eff, 0, Step(eff, Step(eff, s)));
  }

  /** ldr x17, literal; br or blr x17. */
  lemma {:induction false} RunLongBranch(eff: Effect, items: seq<Item>, dst: nat, p: nat, m: Machine)
    requires Loaded(items, m.mem, dst) && p + 1 < |items| && items[p].LoadLit?
    requires items[p + 1] == Raw(BR_TMP) || items[p + 1] == Raw(BLR_TMP)
    ensures dst + 4 * p + 8 < TWO64
    ensures var v := items[p].value;
      var loaded := SetReg(m, 17, v);
      Run(eff, 2, State(m, dst + 4 * p))
        == State(if items[p + 1] == Raw(BLR_TMP) then SetReg(loaded, 30, dst + 4 * p + 8) else loaded, v)
  {
    hide Image, Run, Decode;
    var loaded := SetReg(m, 17, items[p].value);
    StepLoad(eff, items, dst, p, m);
    StepRaw(eff, items, dst, p + 1, loaded);
    DecodeFixed();
    TargetNear(dst + 4 * p + 4, 4);
    Run2(eff, State(m, dst + 4 * p));
  }

  lemma KeepLow(h0: nat, h1: nat)
    requires h0 < 0x1_0000 && h1 < 0x1_0000
    ensures MoveKeep(0, 0, h0) == h0
    ensures MoveKeep(h0, 1, h1) == h1 * 0x1_0000 + h0
  {}

  lemma KeepHigh(low: nat, h2: nat, h3: nat)
    requires low < 0x1_0000_0000 && h2 < 0x1_0000 && h3 < 0x1_0000
    ensures MoveKeep(low, 2, h2) == h2 * 0x1_0000_0000 + low
    ensures MoveKeep(h2 * 0x1_0000_0000 + low, 3, h3) == h3 * 0x1_0000_0000_0000 + h2 * 0x1_0000_0000 + low
  {}

  lemma Digits(imm: Addr)
    ensures imm % 0x1_0000_0000 == imm / 0x1_0000 % 0x1_0000 * 0x1_0000 + imm % 0x1_0000
    ensures imm / 0x1_0000_0000 == imm / 0x1_0000_0000_0000 * 0x1_0000 + imm / 0x1_0000_0000 % 0x1_0000
  {
    HalfDigits(imm);
    var high := imm / 0x1_0000_0000;
    assert high / 0x1_0000 == imm / 0x1_0000_0000_0000;
  }

  lemma HalfDigits(imm: Addr)
    ensures imm % 0x1_0000_0000 == imm / 0x1_0000 % 0x1_0000 * 0x1_0000 + imm % 0x1_0000
  {
    var q, a := imm / 0x1_0000_0000, imm / 0x1_0000;
    assert imm == 0x1_0000 * a + imm % 0x1_0000;
    assert a / 0x1_0000 == q;
    assert a % 0x1_0000 == a - 0x1_0000 * q;
  }

  lemma MovCompose(imm: Addr)
    ensures MoveKeep(MoveKeep(MoveKeep(MoveKeep(0, 0, imm % 0x1_0000), 1, imm / 0x1_0000 % 0x1_0000),
                              2, imm / 0x1_0000_0000 % 0x1_0000), 3, imm / 0x1_0000_0000_0000) == imm
  {
    KeepLow(imm % 0x1_0000, imm / 0x1_0000 % 0x1_0000);
    KeepHigh(imm % 0x1_0000_0000, imm / 0x1_0000_0000 % 0x1_0000, imm / 0x1_0000_0000_0000);
    Digits(imm);
  }

  lemma {:induction false} StepMovz(eff: Effect, items: seq<Item>, dst: nat, p: nat, m: Machine, rd: nat, imm: nat)
    requires Loaded(items, m.mem, dst) && p < |items| && rd < 32 && imm < 0x1_0000
    requires items[p] == Raw(MovzWord(rd, imm))
    ensures dst + 4 * p + 4 < TWO64
    ensures Step(eff, State(m, dst + 4 * p)) == State(SetReg(m, rd, MoveKeep(0, 0, imm)), dst + 4 * p + 4)
  {
    hide Decode, MoveKeep, Image, Target, MovzWord;
    StepRaw(eff, items, dst, p, m);
    DecodeMovz(rd, imm);
    TargetNear(dst + 4 * p, 4);
  }

  lemma {:induction false} StepMovk(eff: Effect, items: seq<Item>, dst: nat, p: nat, m: Machine, rd: nat, imm: nat, hw: nat)
    requires Loaded(items, m.mem, dst) && p < |items| && rd < 32 && imm < 0x1_0000 && hw < 4
    requires items[p] == Raw(MovkWord(rd, imm, hw))
    ensures dst + 4 * p + 4 < TWO64
    ensures Step(eff, State(m, dst + 4 * p)) == State(SetReg(m, rd, MoveKeep(Reg(m, rd), hw, imm)), dst + 4 * p + 4)
  {
    hide Decode, MoveKeep, Image, Target, MovkWord;
    StepRaw(eff, items, dst, p, m);
    DecodeMovk(rd, imm, hw);
    TargetNear(dst + 4 * p, 4);
  }

  lemma SetTwice(m: Machine, r: nat, v: Addr, v': Addr)
    ensures SetReg(SetReg(m, r, v), r, v') == SetReg(m, r, v')
    ensures r < 31 ==> Reg(SetReg(m, r, v), r) == v
  {}

  lemma {:induction false} RunMovLow(eff: Effect, items: seq<Item>, dst: nat, p: nat, m: Machine, rd: nat, h0: nat, h1: nat)
    requires Loaded(items, m.mem, dst) && rd < 32 && h0 < 0x1_0000 && h1 < 0x1_0000 && p + 2 <= |items|
    requires items[p] == Raw(MovzWord(rd, h0)) && items[p + 1] == Raw(MovkWord(rd, h1, 1))
    ensures dst + 4 * p + 8 < TWO64
    ensures Run(eff, 2, State(m, dst + 4 * p))
      == State(SetReg(m, rd, MoveKeep(MoveKeep(0, 0, h0), 1, h1)), dst + 4 * p + 8)
  {
    hide Step, Decode;
    var v0 := MoveKeep(0, 0, h0);
    StepMovz(eff, items, dst, p, m, rd, h0);
    StepMovk(eff, items, dst, p + 1, SetReg(m, rd, v0), rd, h1, 1);
    SetTwice(m, rd, v0, MoveKeep(v0, 1, h1));
    Run2(eff, State(m, dst + 4 * p));
  }

  lemma {:induction false} RunMovHigh(eff: Effect, items: seq<Item>, dst: nat, p: nat, m: Machine, rd: nat, v: Addr,
                                      h2: nat, h3: nat)
    requires Loaded(items, m.mem, dst) && rd < 32 && h2 < 0x1_0000 && h3 < 0x1_0000 && p + 2 <= |items|
    requires items[p] == Raw(MovkWord(rd, h2, 2)) && items[p + 1] == Raw(MovkWord(rd, h3, 3))
    ensures dst + 4 * p + 8 < TWO64
    ensures Run(eff, 2, State(SetReg(m, rd, v), dst + 4 * p))
      == State(SetReg(m, rd, MoveKeep(MoveKeep(v, 2, h2), 3, h3)), dst + 4 * p + 8)
  {
    hide Step, Decode;
    var m1 := SetReg(m, rd, v);
    var v2 := MoveKeep(v, 2, h2);
    var v3 := MoveKeep(v2, 3, h3);
    StepMovk(eff, items, dst, p, m1, rd, h2, 2);
    SetTwice(m, rd, v, v2);
    StepMovk(eff, items, dst, p + 1, SetReg(m, rd, v2), rd, h3, 3);
    SetTwice(m, rd, v2, v3);
    Run2(eff, State(m1, dst + 4 * p));
  }

  /** movz and three movk put the 64-bit constant into the register. */
  lemma {:induction false} RunMov(eff: Effect, items: seq<Item>, dst: nat, p: nat, m: Machine, rd: nat, imm: Addr)
    requires Loaded(items, m.mem, dst) && rd < 32 && Has(items, p, MovItems(rd, imm))
    ensures dst + 4 * p + 16 < TWO64
    ensures Run(eff, 4, State(m, dst + 4 * p)) == State(SetReg(m, rd, imm), dst + 4 * p + 16)
  {
    hide Step, Decode;
    var h0, h1 := imm % 0x1_0000, imm / 0x1_0000 % 0x1_0000;
    var h2, h3 := imm / 0x1_0000_0000 % 0x1_0000, imm / 0x1_0000_0000_0000;
    var part := items[p..p + 4];
    assert items[p] == part[0] && items[p + 1] == part[1] && items[p + 2] == part[2] && items[p + 3] == part[3];
    RunMovLow(eff, items, dst, p, m, rd, h0, h1);
    RunMovHigh(eff, items, dst, p + 2, m, rd, MoveKeep(MoveKeep(0, 0, h0), 1, h1), h2, h3);
    MovCompose(imm);
    RunAdd(eff, 2, 2, State(m, dst + 4 * p));
  }

  /** The inverted guard jumps over the long branch; otherwise it falls into it. */
  lemma {:induction false} StepGuard(eff: Effect, items: seq<Item>, dst: nat, p: nat, m: Machine, g: Insn)
    requires Loaded(items, m.mem, dst) && p < |items| && items[p].Raw? && Decode(items[p].w) == g
    requires g.BCond? || g.CmpB? || g.TestB?
    requires g.off == 12 && p + 3 <= |items|
    ensures dst + 4 * p + 12 < TWO64
    ensures Step(eff, State(m, dst + 4 * p)) == State(m, if Taken(g, m) then dst + 4 * p + 12 else dst + 4 * p + 4)
  {
    StepRaw(eff, items, dst, p, m);
    TargetNear(dst + 4 * p, 4);
    TargetNear(dst + 4 * p, 12);
  }

  /** A guarded long branch: three steps to the target when the guard's test fails, one
      step past the branch when it holds. */
  lemma {:induction false} RunGuarded(eff: Effect, items: seq<Item>, dst: nat, p: nat, m: Machine, g: Insn)
    requires Loaded(items, m.mem, dst) && p + 3 <= |items|
    requires items[p].Raw? && Decode(items[p].w) == g && items[p + 1].LoadLit? && items[p + 2] == Raw(BR_TMP)
    requires (g.BCond? || g.CmpB? || g.TestB?) && g.off == 12
    ensures dst + 4 * p + 12 < TWO64
    ensures Taken(g, m) ==> Run(eff, 1, State(m, dst + 4 * p)) == State(m, dst + 4 * p + 12)
    ensures !Taken(g, m) ==> Run(eff, 3, State(m, dst + 4 * p)) == State(SetReg(m, 17, items[p + 1].value), items[p + 1].value)
  {
    hide Step, Decode;
    StepGuard(eff, items, dst, p, m, g);
    if Taken(g, m) {
      assert Run(eff, 1, State(m, dst + 4 * p)) == Run(eff, 0, Step(eff, State(m, dst + 4 * p)));
    } else {
      RunLongBranch(eff, items, dst, p + 1, m);
    }
  }

  // ----- one instruction -----

  function Steps(i: Insn, m: Machine): nat {
    match i
    case B(_) => 2
    case BL(_) => 2
    case LdrLitW(_, _) => 5
    case LdrLitX(_, _) => 5
    case Adr(_, _) => 4
    case Adrp(_, _) => 4
    case BCond(_, _) => if Taken(i, m) then 3 else 1
    case CmpB(_, _, _, _) => if Taken(i, m) then 3 else 1
    case TestB(_, _, _, _) => if Taken(i, m) then 3 else 1
    case _ => 1
  }

  /** What running the image of instruction i, number k, from a related machine must reach:
      the same address after a transfer of control, else the image of instruction k + 1. */
  ghost predicate Matches(eff: Effect, i: Insn, orig: seq<Word>, src: Addr, dst: nat, k: nat, o: Machine, s: State)
    requires k < |orig|
    requires i.Movz? || i.Movk? ==> i.hw < 4 && i.imm < 0x1_0000
  {
    var so := Exec(eff, i, o, Target(src, 4 * k), OrigView(o.mem, orig, src));
    if Taken(i, o) then RelExit(orig, src, dst, Exit(so, Links(i), k + 1), s)
    else s.pc == Image4(orig, src, dst, k + 1) && Rel(so.m, s.m)
  }

  lemma RelSet(o: Machine, r: Machine, reg: nat, v: Addr)
    requires Rel(o, r)
    ensures Rel(SetReg(o, reg, v), SetReg(r, reg, v))
    ensures Rel(o, SetReg(r, 17, v))
    ensures reg != 17 ==> Reg(o, reg) == Reg(r, reg)
  {
    var a, b := SetReg(o, reg, v), SetReg(r, reg, v);
    assert b.x == a.x[17 := b.x[17]];
    assert SetReg(r, 17, v).x == o.x[17 := v];
  }

  /** What every case below starts from. */
  ghost predicate AtImage(orig: seq<Word>, src: Addr, branch: bool, dst: nat, k: nat, o: Machine, r: Machine) {
    && k < |orig| && Rel(o, r)
    && src + 4 * |orig| < TWO64
    && Loaded(AllItems(orig, src, branch), r.mem, dst)
  }

  lemma {:induction false} Setup(orig: seq<Word>, src: Addr, branch: bool, dst: nat, k: nat, o: Machine, r: Machine)
    requires AtImage(orig, src, branch, dst, k, o, r)
    ensures Target(src, 4 * k) == src + 4 * k
    ensures Has(AllItems(orig, src, branch), |Items(orig, src, k)|, Template(orig[k], Target(src, 4 * k)))
    ensures Image4(orig, src, dst, k + 1) == Image4(orig, src, dst, k) + 4 * |Template(orig[k], Target(src, 4 * k))|
    ensures Image4(orig, src, dst, k + 1) < TWO64
  {
    BlockHasTemplate(orig, src, branch, k);
    TargetNear(src, 4 * k);
  }

  lemma {:induction false} MatchBranch(eff: Effect, i: Insn, orig: seq<Word>, src: Addr, dst: nat, k: nat,
                                       o: Machine, r: Machine, v: Addr)
    requires k < |orig| && Rel(o, r) && (i.B? || i.BL?) && v == Target(Target(src, 4 * k), i.off)
    requires Image4(orig, src, dst, k + 1) < TWO64
    ensures var loaded := SetReg(r, 17, v);
      Matches(eff, i, orig, src, dst, k, o,
              State(if i.BL? then SetReg(loaded, 30, Image4(orig, src, dst, k + 1)) else loaded, v))
  {
    var back := Image4(orig, src, dst, k + 1);
    var so := Exec(eff, i, o, Target(src, 4 * k), OrigView(o.mem, orig, src));
    RelSet(o, r, 17, v);
    RelSet(o, SetReg(r, 17, v), 30, back);
    if i.BL? {
      SetTwice(o, 30, Target(Target(src, 4 * k), 4), back);
      assert SetReg(so.m, 30, back) == SetReg(o, 30, back);
    }
  }

  lemma PageOfTarget(pc: Addr, n: int)
    ensures TruncPage(Target(pc, 0x1000 * n)) == Target(pc / 0x1000 * 0x1000, 0x1000 * n)
  {
    var page, low := pc / 0x1000, pc % 0x1000;
    var q := (page + n) % 0x10_0000_0000_0000;
    var c := (page + n) / 0x10_0000_0000_0000;
    assert pc + 0x1000 * n == TWO64 * c + (0x1000 * q + low);
    assert page * 0x1000 + 0x1000 * n == TWO64 * c + 0x1000 * q;
    ModTwo64(c, 0x1000 * q + low);
    ModTwo64(c, 0x1000 * q);
  }

  lemma ModTwo64(c: int, v: nat)
    requires v < TWO64
    ensures (TWO64 * c + v) % 0x1_0000_0000_0000_0000 == v
  {}

  /** Equal machines but for x17 give equal literal loads, and the wider load of the image
      agrees with the original one. */
  lemma {:induction false} MatchLiteral(eff: Effect, i: Insn, orig: seq<Word>, src: Addr, dst: nat, k: nat, o: Machine, r: Machine)
    requires k < |orig| && Rel(o, r) && (i.LdrLitW? || i.LdrLitX?)
    requires Faithful(i, o, Target(src, 4 * k), src, |orig|)
    requires Image4(orig, src, dst, k + 1) < TWO64
    ensures Matches(eff, i, orig, src, dst, k, o,
              State(SetReg(r, i.rt, Read64(r.mem, Target(Target(src, 4 * k), i.off))), Image4(orig, src, dst, k + 1)))
  {
    var t := Target(Target(src, 4 * k), i.off);
    ViewOutside(o.mem, orig, src, t, if i.LdrLitW? then 4 else 8);
    var v := if i.LdrLitW? then Read32(o.mem, t) else Read64(o.mem, t);
    var wide := Read64(r.mem, t);
    RelSet(o, r, i.rt, v);
    if i.rt == 17 {
      RelScratch(o, r, v, wide);
    }
  }

  lemma RelScratch(o: Machine, r: Machine, v: Addr, v': Addr)
    requires Rel(o, r)
    ensures Rel(SetReg(o, 17, v), SetReg(r, 17, v'))
  {
    assert SetReg(r, 17, v').x == SetReg(o, 17, v).x[17 := v'];
  }

  lemma ViewOutside(mem: Mem, orig: seq<Word>, src: nat, a: nat, size: nat)
    requires Clear(a, size, src, |orig|) && (size == 4 || size == 8)
    ensures Read32(OrigView(mem, orig, src), a) == Read32(mem, a)
    ensures size == 8 ==> Read64(OrigView(mem, orig, src), a) == Read64(mem, a)
  {}

  lemma {:induction false} MatchMov(eff: Effect, i: Insn, orig: seq<Word>, src: Addr, dst: nat, k: nat,
                                    o: Machine, r: Machine, v: Addr)
    requires k < |orig| && Rel(o, r) && (i.Adr? || i.Adrp?)
    requires v == if i.Adr? then Target(Target(src, 4 * k), i.off) else Target(Target(src, 4 * k) / 0x1000 * 0x1000, i.off)
    requires Image4(orig, src, dst, k + 1) < TWO64
    ensures Matches(eff, i, orig, src, dst, k, o, State(SetReg(r, i.rd, v), Image4(orig, src, dst, k + 1)))
  {
    RelSet(o, r, i.rd, v);
  }

  /** The inverted test of the guard. */
  ghost predicate Inverts(g: Insn, i: Insn) {
    match i
    case BCond(cond, _) => g == BCond(FlipBit0(cond), 12)
    case CmpB(is64, nz, rt, _) => g == CmpB(is64, !nz, rt, 12)
    case TestB(bit, nz, rt, _) => g == TestB(bit, !nz, rt, 12)
    case _ => false
  }

  lemma FlippedCondition(cond: nat, nzcv: nat)
    requires cond < 16
    ensures cond < 14 ==> CondHolds(FlipBit0(cond), nzcv) == !CondHolds(cond, nzcv)
    ensures cond >= 14 ==> CondHolds(FlipBit0(cond), nzcv) && CondHolds(cond, nzcv)
  {}

  lemma GuardOpposes(g: Insn, i: Insn, o: Machine, r: Machine)
    requires Inverts(g, i) && Rel(o, r)
    requires i.BCond? ==> i.cond < 14
    requires i.CmpB? || i.TestB? ==> i.rt != 17
    ensures Taken(g, r) == !Taken(i, o)
  {
    if i.BCond? {
      FlippedCondition(i.cond, o.nzcv);
    } else {
      RelSet(o, r, i.rt, 0);
    }
  }

  lemma {:induction false} MatchGuarded(eff: Effect, i: Insn, orig: seq<Word>, src: Addr, dst: nat, k: nat,
                                        o: Machine, r: Machine, v: Addr)
    requires k < |orig| && Rel(o, r) && (i.BCond? || i.CmpB? || i.TestB?)
    requires v == Target(Target(src, 4 * k), i.off) && Image4(orig, src, dst, k + 1) < TWO64
    ensures Matches(eff, i, orig, src, dst, k, o,
              if Taken(i, o) then State(SetReg(r, 17, v), v) else State(r, Image4(orig, src, dst, k + 1)))
  {
    RelSet(o, r, 17, v);
  }

  lemma {:induction false} MatchPlain(eff: Effect, i: Insn, orig: seq<Word>, src: Addr, dst: nat, k: nat,
                                      o: Machine, r: Machine, pc: Addr, lit: Mem)
    requires k < |orig| && Rel(o, r)
    requires i.Movz? || i.Movk? || i.LdrX? || i.Br? || i.Blr? || i.Ret? || i.Other?
    requires Faithful(i, o, Target(src, 4 * k), src, |orig|)
    requires i.Movz? || i.Movk? ==> i.hw < 4 && i.imm < 0x1_0000
    requires i.Other? ==> Rel(eff(i.w, o), eff(i.w, r))
    requires pc + 4 == Image4(orig, src, dst, k + 1) < TWO64
    ensures Matches(eff, i, orig, src, dst, k, o, Exec(eff, i, r, pc, lit))
  {
    TargetNear(pc, 4);
    match i
    case Movz(rd, hw, imm) => RelSet(o, r, rd, MoveKeep(0, hw, imm));
    case Movk(rd, hw, imm) =>
      RelSet(o, r, rd, MoveKeep(Reg(r, rd), hw, imm));
      if rd == 17 {
        RelScratch(o, r, MoveKeep(Reg(o, 17), hw, imm), MoveKeep(Reg(r, 17), hw, imm));
      }
    case LdrX(rt, rn, imm) =>
      var base := if rn < 31 then o.x[rn] else o.sp;
      RelSet(o, r, rn, 0);
      RelSet(o, r, rt, Read64(o.mem, Target(base, imm)));
    case Br(rn) => RelSet(o, r, rn, 0);
    case Ret(rn) => RelSet(o, r, rn, 0);
    case Blr(rn) =>
      var back := Image4(orig, src, dst, k + 1);
      RelSet(o, r, rn, 0);
      RelSet(o, r, 30, back);
      SetTwice(o, 30, Target(Target(src, 4 * k), 4), back);
    case Other(w) =>
  }

  /** Instruction k of the original against its image: the statement of SimulateOne. */
  ghost predicate Simulates(eff: Effect, orig: seq<Word>, src: Addr, branch: bool, dst: nat, k: nat, o: Machine, s: State)
    requires k < |orig|
  {
    && CodeAt(s.m.mem, dst, Image(AllItems(orig, src, branch)))
    && (DecodeFields(orig[k]); Matches(eff, Decode(orig[k]), orig, src, dst, k, o, s))
  }

  lemma {:induction false} SimBranch(eff: Effect, orig: seq<Word>, src: Addr, branch: bool, dst: nat, k: nat, o: Machine, r: Machine)
    requires AtImage(orig, src, branch, dst, k, o, r) && IsBBl(orig[k])
    ensures Image4(orig, src, dst, k) < TWO64
    ensures Simulates(eff, orig, src, branch, dst, k, o, Run(eff, 2, State(r, Image4(orig, src, dst, k))))
  {
    hide Step, Decode, Image, Exec, Matches, CodeAt, Target, Items, Run;
    hide DecodeImm14Offset, DecodeImm19Offset, DecodeImm26Offset, DecodeImmHiLoOffset;
    Setup(orig, src, branch, dst, k, o, r);
    var w, pc, items, p := orig[k], Target(src, 4 * k), AllItems(orig, src, branch), |Items(orig, src, k)|;
    BranchInsn(w);
    var part := items[p..p + 2];
    assert items[p] == part[0] && items[p + 1] == part[1];
    RunLongBranch(eff, items, dst, p, r);
    MatchBranch(eff, Decode(w), orig, src, dst, k, o, r, items[p].value);
  }

  /** The image of a literal load: the address into x17, then the 64-bit load. */
  lemma {:induction false} RunLiteral(eff: Effect, orig: seq<Word>, src: Addr, branch: bool, dst: nat, k: nat, o: Machine, r: Machine, t: Addr)
    requires AtImage(orig, src, branch, dst, k, o, r) && !IsBBl(orig[k]) && IsLdrLiteral(orig[k])
    requires t == Target(Target(src, 4 * k), DecodeImm19Offset(orig[k]))
    ensures Image4(orig, src, dst, k) < TWO64 && Image4(orig, src, dst, k + 1) < TWO64
    ensures Run(eff, 5, State(r, Image4(orig, src, dst, k)))
      == State(SetReg(SetReg(r, 17, t), orig[k] % 32, Read64(r.mem, t)), Image4(orig, src, dst, k + 1))
  {
    hide Step, Decode, Image, Exec, CodeAt, Target, Items, Run;
    hide DecodeImm14Offset, DecodeImm19Offset, DecodeImm26Offset, DecodeImmHiLoOffset;
    Setup(orig, src, branch, dst, k, o, r);
    var w, items, p := orig[k], AllItems(orig, src, branch), |Items(orig, src, k)|;
    var part := items[p..p + 5];
    assert part[..4] == MovItems(17, t) && part[4] == Raw(LdrWord(w % 32, 17));
    assert items[p..p + 4] == part[..4] && items[p + 4] == part[4];
    RunMov(eff, items, dst, p, r, 17, t);
    StepLdr(eff, items, dst, p + 4, SetReg(r, 17, t), w % 32, t);
    RunAdd(eff, 4, 1, State(r, dst + 4 * p));
    RunOne(eff, State(SetReg(r, 17, t), dst + 4 * p + 16));
  }

  lemma {:induction false} SimLiteral(eff: Effect, orig: seq<Word>, src: Addr, branch: bool, dst: nat, k: nat, o: Machine, r: Machine)
    requires AtImage(orig, src, branch, dst, k, o, r) && !IsBBl(orig[k]) && IsLdrLiteral(orig[k])
    requires Faithful(Decode(orig[k]), o, Target(src, 4 * k), src, |orig|)
    ensures Image4(orig, src, dst, k) < TWO64
    ensures Simulates(eff, orig, src, branch, dst, k, o, Run(eff, 5, State(r, Image4(orig, src, dst, k))))
  {
    hide Step, Decode, Image, Exec, Matches, CodeAt, Target, Items, Run, Template, AllItems;
    hide DecodeImm14Offset, DecodeImm19Offset, DecodeImm26Offset, DecodeImmHiLoOffset;
    LiteralInsn(orig[k]);
    var t := Target(Target(src, 4 * k), DecodeImm19Offset(orig[k]));
    RunLiteral(eff, orig, src, branch, dst, k, o, r, t);
    RelSet(o, r, 17, t);
    MatchLiteral(eff, Decode(orig[k]), orig, src, dst, k, o, SetReg(r, 17, t));
  }

  lemma RunOne(eff: Effect, s: State)
    ensures Run(eff, 1, s) == Step(eff, s)
  {
    hide Step;
    assert Run(eff, 0, Step(eff, s)) == Step(eff, s);
  }

  lemma {:induction false} StepLdr(eff: Effect, items: seq<Item>, dst: nat, p: nat, m: Machine, rt: nat, t: Addr)
    requires Loaded(items, m.mem, dst) && p < |items| && rt < 32
    requires items[p] == Raw(LdrWord(rt, 17)) && m.x[17] == t
    ensures dst + 4 * p + 4 < TWO64
    ensures Step(eff, State(m, dst + 4 * p)) == State(SetReg(m, rt, Read64(m.mem, t)), dst + 4 * p + 4)
  {
    hide Decode, Image;
    StepRaw(eff, items, dst, p, m);
    DecodeLdr(rt, 17);
    TargetNear(dst + 4 * p, 4);
    TargetNear(t, 0);
  }

  lemma {:induction false} SimAdr(eff: Effect, orig: seq<Word>, src: Addr, branch: bool, dst: nat, k: nat, o: Machine, r: Machine)
    requires AtImage(orig, src, branch, dst, k, o, r) && !IsBBl(orig[k]) && !IsLdrLiteral(orig[k])
    requires IsAdr(orig[k]) || IsAdrp(orig[k])
    ensures Image4(orig, src, dst, k) < TWO64
    ensures Simulates(eff, orig, src, branch, dst, k, o, Run(eff, 4, State(r, Image4(orig, src, dst, k))))
  {
    hide Step, Decode, Image, Exec, Matches, CodeAt, Target, Items, Run;
    hide DecodeImm14Offset, DecodeImm19Offset, DecodeImm26Offset, DecodeImmHiLoOffset;
    Setup(orig, src, branch, dst, k, o, r);
    var w, pc, items, p := orig[k], Target(src, 4 * k), AllItems(orig, src, branch), |Items(orig, src, k)|;
    AdrInsn(w);
    var v := if IsAdr(w) then Target(pc, DecodeImmHiLoOffset(w)) else TruncPage(Target(pc, DecodeImmHiLoZero12Offset(w)));
    RunMov(eff, items, dst, p, r, w % 32, v);
    PageOfTarget(pc, DecodeImmHiLoOffset(w));
    MatchMov(eff, Decode(w), orig, src, dst, k, o, r, v);
  }

  lemma {:induction false} SimGuarded(eff: Effect, orig: seq<Word>, src: Addr, branch: bool, dst: nat, k: nat, o: Machine, r: Machine)
    requires AtImage(orig, src, branch, dst, k, o, r) && IsGuarded(orig[k])
    requires Faithful(Decode(orig[k]), o, Target(src, 4 * k), src, |orig|)
    ensures Image4(orig, src, dst, k) < TWO64
    ensures Simulates(eff, orig, src, branch, dst, k, o,
              Run(eff, if Taken(Decode(orig[k]), o) then 3 else 1, State(r, Image4(orig, src, dst, k))))
  {
    hide Step, Decode, Image, Exec, Matches, CodeAt, Target, Items, Run, Taken, FlipCond, FlipCompare, FlipTest;
    hide DecodeImm14Offset, DecodeImm19Offset, DecodeImm26Offset, DecodeImmHiLoOffset;
    Setup(orig, src, branch, dst, k, o, r);
    var w, pc, items, p := orig[k], Target(src, 4 * k), AllItems(orig, src, branch), |Items(orig, src, k)|;
    GuardedInsn(w);
    var part := items[p..p + 3];
    assert items[p] == part[0] && items[p + 1] == part[1] && items[p + 2] == part[2];
    var g, i := Decode(items[p].w), Decode(w);
    GuardOpposes(g, i, o, r);
    RunGuarded(eff, items, dst, p, r, g);
    MatchGuarded(eff, i, orig, src, dst, k, o, r, items[p + 1].value);
  }

  lemma {:induction false} SimPlain(eff: Effect, orig: seq<Word>, src: Addr, branch: bool, dst: nat, k: nat, o: Machine, r: Machine)
    requires AtImage(orig, src, branch, dst, k, o, r)
    requires !IsBBl(orig[k]) && !IsLdrLiteral(orig[k]) && !IsAdr(orig[k]) && !IsAdrp(orig[k]) && !IsGuarded(orig[k])
    requires Faithful(Decode(orig[k]), o, Target(src, 4 * k), src, |orig|)
    requires Decode(orig[k]).Other? ==> Tame(eff, orig[k])
    requires Spares(eff, orig, src, branch, dst, k, o)
    ensures Image4(orig, src, dst, k) < TWO64
    ensures Simulates(eff, orig, src, branch, dst, k, o, Run(eff, 1, State(r, Image4(orig, src, dst, k))))
  {
    hide Decode, Image, Matches, Faithful, CodeAt, Target, Items, Run;
    Setup(orig, src, branch, dst, k, o, r);
    var w, items, p := orig[k], AllItems(orig, src, branch), |Items(orig, src, k)|;
    PlainInsn(w);
    var part := items[p..p + 1];
    assert items[p] == part[0];
    StepRaw(eff, items, dst, p, r);
    RunOne(eff, State(r, dst + 4 * p));
    DecodeFields(w);
    MatchPlain(eff, Decode(w), orig, src, dst, k, o, r, dst + 4 * p, r.mem);
  }

  /** Each faithful instruction of the prologue is simulated by its image. */
  lemma {:induction false} SimulateOne(eff: Effect, orig: seq<Word>, src: Addr, branch: bool, dst: nat, k: nat, o: Machine, r: Machine)
    requires AtImage(orig, src, branch, dst, k, o, r)
    requires Faithful(Decode(orig[k]), o, Target(src, 4 * k), src, |orig|)
    requires Decode(orig[k]).Other? ==> Tame(eff, orig[k])
    requires Spares(eff, orig, src, branch, dst, k, o)
    ensures Image4(orig, src, dst, k) < TWO64
    ensures Simulates(eff, orig, src, branch, dst, k, o,
              Run(eff, Steps(Decode(orig[k]), o), State(r, Image4(orig, src, dst, k))))
  {
    hide Step, Decode, Image, Simulates, Faithful, Tame, Spares, Taken, CodeAt, Target, Items, Run;
    var w := orig[k];
    if IsBBl(w) {
      BranchInsn(w);
      SimBranch(eff, orig, src, branch, dst, k, o, r);
    } else if IsLdrLiteral(w) {
      NotOtherLiteral(w, o, Target(src, 4 * k), src, |orig|);
      LiteralInsn(w);
      SimLiteral(eff, orig, src, branch, dst, k, o, r);
    } else if IsAdr(w) || IsAdrp(w) {
      AdrInsn(w);
      SimAdr(eff, orig, src, branch, dst, k, o, r);
    } else if IsGuarded(w) {
      NotOtherLiteral(w, o, Target(src, 4 * k), src, |orig|);
      GuardedInsn(w);
      SimGuarded(eff, orig, src, branch, dst, k, o, r);
    } else {
      PlainInsn(w);
      SimPlain(eff, orig, src, branch, dst, k, o, r);
    }
  }

  lemma NotOtherLiteral(w: Word, m: Machine, pc: Addr, src: Addr, n: nat)
    requires Faithful(Decode(w), m, pc, src, n)
    ensures !Decode(w).LdrLitOther? && !Decode(w).Unallocated?
  {
    hide Decode;
  }
}
