/** Whole runs of the relocated prologue, and the exact limits of the rewriting. */
module Arm64Correctness {
  import opened Arm64Isa
  import opened Arm64Codec
  import opened Arm64Assembler
  import opened Arm64Relocator
  import opened Arm64Layout
  import opened Arm64Simulation

  /** Every instruction that the original executes from k on is relocated faithfully, and none of
      them overwrites the relocated block at dst. */
  ghost predicate FaithfulRun(eff: Effect, orig: seq<Word>, src: Addr, dst: nat, k: nat, m: Machine)
    requires k <= |orig|
    decreases |orig| - k
  {
    k < |orig| ==>
      && Faithful(Decode(orig[k]), m, Target(src, 4 * k), src, |orig|)
      && Spares(eff, orig, src, true, dst, k, m)
      && (!Taken(Decode(orig[k]), m) ==> FaithfulRun(eff, orig, src, dst, k + 1, OrigStep(eff, orig, src, k, m).m))
  }

  ghost predicate AllTame(eff: Effect, orig: seq<Word>) {
    forall k :: 0 <= k < |orig| && Decode(orig[k]).Other? ==> Tame(eff, orig[k])
  }

  function BlockSteps(eff: Effect, orig: seq<Word>, src: Addr, k: nat, m: Machine): nat
    requires k <= |orig|
    decreases |orig| - k
  {
    if k == |orig| then 2
    else
      var i := Decode(orig[k]);
      Steps(i, m) + if Taken(i, m) then 0 else BlockSteps(eff, orig, src, k + 1, OrigStep(eff, orig, src, k, m).m)
  }

  /** The final branch of the block goes to the instruction after the prologue. */
  lemma {:induction false} RunRest(eff: Effect, orig: seq<Word>, src: Addr, dst: nat, o: Machine, r: Machine)
    requires Rel(o, r) && src + 4 * |orig| < TWO64
    requires Loaded(AllItems(orig, src, true), r.mem, dst)
    ensures Image4(orig, src, dst, |orig|) < TWO64
    ensures RelExit(orig, src, dst, RunBlock(eff, orig, src, |orig|, o),
                    Run(eff, 2, State(r, Image4(orig, src, dst, |orig|))))
  {
    hide Step, Decode, Image, CodeAt, Items, Run;
    var items, p := AllItems(orig, src, true), |Items(orig, src, |orig|)|;
    assert items[p] == LoadLit(Target(src, 4 * |orig|)) && items[p + 1] == Raw(BR_TMP);
    RunLongBranch(eff, items, dst, p, r);
    RelSet(o, r, 17, Target(src, 4 * |orig|));
  }

  /** From any instruction of the prologue, the relocated run leaves the block where the
      original leaves the prologue, in a related machine. */
  lemma {:induction false} SimulateBlock(eff: Effect, orig: seq<Word>, src: Addr, dst: nat, k: nat, o: Machine, r: Machine)
    requires k <= |orig| && Rel(o, r) && src + 4 * |orig| < TWO64
    requires Loaded(AllItems(orig, src, true), r.mem, dst)
    requires FaithfulRun(eff, orig, src, dst, k, o)
    requires AllTame(eff, orig)
    ensures Image4(orig, src, dst, k) < TWO64
    ensures RunBlock(eff, orig, src, k, o).next <= |orig|
    ensures RelExit(orig, src, dst, RunBlock(eff, orig, src, k, o),
                    Run(eff, BlockSteps(eff, orig, src, k, o), State(r, Image4(orig, src, dst, k))))
    decreases |orig| - k
  {
    hide Step, Decode, Image, CodeAt, Items, Run, Faithful, Exec, Steps, Taken, Tame, Spares, AllItems;
    if k == |orig| {
      RunRest(eff, orig, src, dst, o, r);
    } else {
      var i := Decode(orig[k]);
      SimulateOne(eff, orig, src, true, dst, k, o, r);
      var start := State(r, Image4(orig, src, dst, k));
      var s := Run(eff, Steps(i, o), start);
      if !Taken(i, o) {
        var o' := OrigStep(eff, orig, src, k, o).m;
        SimulateBlock(eff, orig, src, dst, k + 1, o', s.m);
        RunAdd(eff, Steps(i, o), BlockSteps(eff, orig, src, k + 1, o'), start);
      }
    }
  }

  // ----- against plain execution of the original -----

  predicate InBlock(orig: seq<Word>, src: Addr, pc: Addr) {
    src <= pc < src + 4 * |orig| && (pc - src) % 4 == 0
  }

  /** The original prologue executed by address, stopping where control has left it. */
  function RunOriginal(eff: Effect, orig: seq<Word>, src: Addr, n: nat, s: State): State {
    if n == 0 || !InBlock(orig, src, s.pc) then s
    else RunOriginal(eff, orig, src, n - 1, OrigStep(eff, orig, src, (s.pc - src) / 4, s.m))
  }

  /** When the run leaves the prologue to an address outside it, executing by address and
      following the straight line are the same. */
  lemma {:induction false} LeavesOnce(eff: Effect, orig: seq<Word>, src: Addr, k: nat, m: Machine, n: nat)
    requires k <= |orig| && src + 4 * |orig| < TWO64 && n >= |orig| - k
    requires !InBlock(orig, src, RunBlock(eff, orig, src, k, m).s.pc)
    ensures RunOriginal(eff, orig, src, n, State(m, src + 4 * k)) == RunBlock(eff, orig, src, k, m).s
    decreases |orig| - k
  {
    hide Decode, Exec, Taken, OrigStep;
    TargetNear(src, 4 * k);
    if k < |orig| {
      var s := OrigStep(eff, orig, src, k, m);
      var i := Decode(orig[k]);
      assert (src + 4 * k - src) / 4 == k;
      if !Taken(i, m) {
        NextAddress(eff, orig, src, k, m);
        LeavesOnce(eff, orig, src, k + 1, s.m, n - 1);
      }
    }
  }

  lemma {:induction false} NextAddress(eff: Effect, orig: seq<Word>, src: Addr, k: nat, m: Machine)
    requires k < |orig| && src + 4 * |orig| < TWO64 && !Taken(Decode(orig[k]), m)
    ensures OrigStep(eff, orig, src, k, m).pc == src + 4 * (k + 1)
  {
    hide Decode;
    TargetNear(src, 4 * k);
    TargetNear(src + 4 * k, 4);
  }

  /** Started at `start`, the relocated code arrives in n steps where the original, executed by address
      from instruction k on, leaves the prologue. */
  ghost predicate Arrives(eff: Effect, orig: seq<Word>, src: Addr, dst: nat, k: nat, o: Machine, start: State, n: nat)
    requires k <= |orig| && src + 4 * |orig| < TWO64
  {
    var exit := RunBlock(eff, orig, src, k, o);
    && exit.s == RunOriginal(eff, orig, src, |orig|, State(o, src + 4 * k))
    && exit.next <= |orig|
    && RelExit(orig, src, dst, exit, Run(eff, n, start))
  }

  ghost predicate Simulates(eff: Effect, orig: seq<Word>, src: Addr, dst: nat, k: nat, o: Machine, start: State)
    requires k <= |orig| && src + 4 * |orig| < TWO64
  {
    exists n: nat :: Arrives(eff, orig, src, dst, k, o, start, n)
  }

  /** The theorem of the relocator. The block that Relocate produces, loaded at dst, entered
      at the image of any prologue instruction, reaches the address at which the original
      leaves the prologue, with the same registers but x17, the same flags, stack pointer,
      vectors and memory; after bl or blr the link register is the image of the original
      return address. */
  lemma {:induction false} RelocationCorrect(eff: Effect, orig: seq<Word>, src: Addr, dst: nat, k: nat, o: Machine, r: Machine)
    requires k <= |orig| && Rel(o, r) && src + 4 * |orig| < TWO64
    requires Loaded(AllItems(orig, src, true), r.mem, dst)
    requires FaithfulRun(eff, orig, src, dst, k, o)
    requires AllTame(eff, orig)
    requires !InBlock(orig, src, RunBlock(eff, orig, src, k, o).s.pc)
    ensures Image4(orig, src, dst, k) < TWO64
    ensures Simulates(eff, orig, src, dst, k, o, State(r, Image4(orig, src, dst, k)))
  {
    SimulateBlock(eff, orig, src, dst, k, o, r);
    LeavesOnce(eff, orig, src, k, o, |orig|);
    var n := BlockSteps(eff, orig, src, k, o);
    assert Arrives(eff, orig, src, dst, k, o, State(r, Image4(orig, src, dst, k)), n);
  }

  /** The instruction is of a kind that the theorem covers, in some machine at some place. */
  ghost predicate Covered(i: Insn) { exists m: Machine, pc: Addr, src: Addr, n: nat :: Faithful(i, m, pc, src, n) }

  /** The same of relo_relocate's own answer: it relocates every prologue of covered instructions, and
      the block that it gives, entered at the offset that it gives for instruction k, simulates the
      original from there. */
  method RelocatePrologue(orig: seq<Word>, src: Addr, ghost eff: Effect, ghost dst: nat, ghost k: nat, ghost o: Machine, ghost r: Machine)
      returns (ok: bool, image: seq<Word>, offsets: seq<nat>)
    requires src + 4 * |orig| < TWO64 && k < |orig|
    ensures (forall j :: 0 <= j < |orig| ==> Covered(Decode(orig[j]))) ==> ok
    ensures ok ==> |offsets| == |orig|
    ensures ok && Rel(o, r) && CodeAt(r.mem, dst, image) && dst + 4 * |image| < TWO64 && 4 * |image| < 0x10_0000
      && FaithfulRun(eff, orig, src, dst, k, o) && AllTame(eff, orig) && !InBlock(orig, src, RunBlock(eff, orig, src, k, o).s.pc)
      ==> dst + offsets[k] < TWO64
          && Simulates(eff, orig, src, dst, k, o, State(r, dst + offsets[k]))
  {
    ok, image, offsets := Relocate(orig, src, true);
    hide Decode, Image, Items, AllItems, FaithfulRun, AllTame, RunBlock, InBlock, Simulates, CodeAt, Rel;
    if ok && Rel(o, r) && CodeAt(r.mem, dst, image) && dst + 4 * |image| < TWO64 && 4 * |image| < 0x10_0000
      && FaithfulRun(eff, orig, src, dst, k, o) && AllTame(eff, orig) && !InBlock(orig, src, RunBlock(eff, orig, src, k, o).s.pc)
    {
      RelocationCorrect(eff, orig, src, dst, k, o, r);
      assert Image4(orig, src, dst, k) == dst + offsets[k];
    }
  }

  // ----- that the theorem applies -----

  function HeldByte(base: nat, ws: seq<Word>, a: nat): Byte {
    if base <= a < base + 4 * |ws| then ByteOf(ws[(a - base) / 4], (a - base) % 4) else 0
  }

  /** Memory that holds these words at base. */
  function Holding(base: nat, ws: seq<Word>): Mem { (a: nat) => HeldByte(base, ws, a) }

  lemma BytesOfWord(w: Word)
    ensures ByteOf(w, 0) + 0x100 * ByteOf(w, 1) + 0x1_0000 * ByteOf(w, 2) + 0x100_0000 * ByteOf(w, 3) == w
  {
    assert w == w % 0x100 + 0x100 * (w / 0x100);
    assert w / 0x100 / 0x100 == w / 0x1_0000;
    assert w / 0x1_0000 / 0x100 == w / 0x100_0000;
  }

  lemma {:induction false} HoldingHolds(base: nat, ws: seq<Word>)
    ensures CodeAt(Holding(base, ws), base, ws)
  {
    forall p | 0 <= p < |ws| ensures Read32(Holding(base, ws), base + 4 * p) == ws[p] {
      HeldWord(base, ws, p);
    }
  }

  lemma {:induction false} HeldWord(base: nat, ws: seq<Word>, p: nat)
    requires p < |ws|
    ensures Read32(Holding(base, ws), base + 4 * p) == ws[p]
  {
    BytesOfWord(ws[p]);
    HeldAt(base, ws, p, 0);
    HeldAt(base, ws, p, 1);
    HeldAt(base, ws, p, 2);
    HeldAt(base, ws, p, 3);
    hide HeldByte, ByteOf;
  }

  lemma {:induction false} HeldAt(base: nat, ws: seq<Word>, p: nat, i: nat)
    requires p < |ws| && i < 4
    ensures HeldByte(base, ws, base + 4 * p + i) == ByteOf(ws[p], i)
  {
    assert (4 * p + i) / 4 == p && (4 * p + i) % 4 == i;
  }

  /** The conditions of RelocationCorrect can be met: they hold of any prologue of instructions
      that have no effect, wherever it is and wherever the block is. */
  lemma {:induction false} RelocationApplies(orig: seq<Word>, src: Addr, dst: nat, m: Machine) returns (eff: Effect, o: Machine)
    requires src + 4 * |orig| < TWO64 && (forall k :: 0 <= k < |orig| ==> Decode(orig[k]).Other?)
    requires dst + 4 * |Image(AllItems(orig, src, true))| < TWO64 && 4 * |Image(AllItems(orig, src, true))| < 0x10_0000
    ensures Rel(o, o) && Loaded(AllItems(orig, src, true), o.mem, dst) && AllTame(eff, orig)
    ensures FaithfulRun(eff, orig, src, dst, 0, o)
    ensures !InBlock(orig, src, RunBlock(eff, orig, src, 0, o).s.pc)
  {
    var image := Image(AllItems(orig, src, true));
    eff, o := (w: Word, m: Machine) => m, m.(mem := Holding(dst, image));
    HoldingHolds(dst, image);
    assert o == o.(x := o.x[17 := o.x[17]]);
    IdleRun(eff, orig, src, dst, 0, o);
  }

  lemma {:induction false} IdleRun(eff: Effect, orig: seq<Word>, src: Addr, dst: nat, k: nat, m: Machine)
    requires k <= |orig| && src + 4 * |orig| < TWO64 && (forall k :: 0 <= k < |orig| ==> Decode(orig[k]).Other?)
    requires (forall w :: eff(w, m) == m) && CodeAt(m.mem, dst, Image(AllItems(orig, src, true)))
    ensures FaithfulRun(eff, orig, src, dst, k, m)
    ensures RunBlock(eff, orig, src, k, m).s.pc == src + 4 * |orig|
    decreases |orig| - k
  {
    hide Decode, Image, AllItems, CodeAt;
    if k < |orig| {
      assert OrigStep(eff, orig, src, k, m).m == m;
      IdleRun(eff, orig, src, dst, k + 1, m);
    }
  }

  // ----- the exact limits -----

  /** b.cond is inverted correctly exactly for the fourteen proper conditions: under b.al
      and b.nv the guard is taken too, and the branch is lost. */
  lemma ConditionInvertible(cond: nat)
    requires cond < 16
    ensures (forall nzcv :: 0 <= nzcv < 16 ==> CondHolds(FlipBit0(cond), nzcv) == !CondHolds(cond, nzcv)) <==> cond < 14
  {
    forall nzcv | 0 <= nzcv < 16
      ensures cond < 14 ==> CondHolds(FlipBit0(cond), nzcv) == !CondHolds(cond, nzcv)
      ensures cond >= 14 ==> CondHolds(FlipBit0(cond), nzcv) && CondHolds(cond, nzcv)
    {
      FlippedCondition(cond, nzcv);
    }
    if cond >= 14 {
      assert CondHolds(FlipBit0(cond), 0) != !CondHolds(cond, 0);
    }
  }

  /** A relocated b.al or b.nv always falls through, though the original always branches. */
  lemma {:induction false} AlwaysBranchIsLost(eff: Effect, orig: seq<Word>, src: Addr, branch: bool, dst: nat, k: nat, o: Machine, r: Machine)
    requires AtImage(orig, src, branch, dst, k, o, r)
    requires orig[k] / 0x100_0000 == 0x54 && orig[k] % 16 >= 14
    ensures Taken(Decode(orig[k]), o)
    ensures Image4(orig, src, dst, k) < TWO64 && Image4(orig, src, dst, k + 1) < TWO64
    ensures Run(eff, 1, State(r, Image4(orig, src, dst, k))) == State(r, Image4(orig, src, dst, k + 1))
  {
    hide Step, Decode, Image, CodeAt, Target, Items, Run, DecodeImm19Offset, FlipCond;
    var w, items, p := orig[k], AllItems(orig, src, branch), |Items(orig, src, k)|;
    TopFields(w);
    assert IsBCond(w) && !IsBBl(w) && !IsLdrLiteral(w) && !IsAdr(w) && !IsAdrp(w);
    Setup(orig, src, branch, dst, k, o, r);
    DecodeAsBCond(w);
    DecodeFlipCond(w);
    FlippedCondition(w % 16, o.nzcv);
    FlippedCondition(w % 16, r.nzcv);
    var part := items[p..p + 3];
    assert items[p] == part[0] && items[p + 1] == part[1] && items[p + 2] == part[2];
    RunGuarded(eff, items, dst, p, r, Decode(items[p].w));
  }

  /** A 32-bit literal load is relocated as a 64-bit one: the register agrees with the
      original exactly when the four bytes after the literal are zero (or the target is the
      zero register). */
  lemma {:induction false} NarrowLiteralExact(eff: Effect, orig: seq<Word>, src: Addr, branch: bool, dst: nat, k: nat, o: Machine, r: Machine)
    requires AtImage(orig, src, branch, dst, k, o, r)
    requires !IsBBl(orig[k]) && IsLdrLiteral(orig[k]) && Decode(orig[k]).LdrLitW? && Decode(orig[k]).rt != 17
    requires Clear(Target(Target(src, 4 * k), Decode(orig[k]).off), 4, src, |orig|)
    ensures Image4(orig, src, dst, k) < TWO64
    ensures var i := Decode(orig[k]);
      Rel(OrigStep(eff, orig, src, k, o).m, Run(eff, 5, State(r, Image4(orig, src, dst, k))).m)
      <==> i.rt == 31 || Read32(o.mem, Target(Target(src, 4 * k), i.off) + 4) == 0
  {
    hide Step, Decode, Image, CodeAt, Target, Items, Run, DecodeImm19Offset, Template, AllItems;
    LiteralInsn(orig[k]);
    var t := Target(Target(src, 4 * k), DecodeImm19Offset(orig[k]));
    RunLiteral(eff, orig, src, branch, dst, k, o, r, t);
    ViewOutside(o.mem, orig, src, t, 4);
    NarrowAgainstWide(o, r, orig[k] % 32, t);
  }

  lemma {:induction false} FewLits(items: seq<Item>)
    ensures |Lits(items)| <= |items|
  {
    if items != [] {
      FewLits(items[..|items| - 1]);
    }
  }

  const NARROW_LOAD: Word := 0x1800_0040   // ldr w0, #8

  lemma {:induction false} NarrowLoad()
    ensures !IsBBl(NARROW_LOAD) && IsLdrLiteral(NARROW_LOAD) && Decode(NARROW_LOAD) == LdrLitW(0, 8)
    ensures Target(Target(0x1000, 4 * 0), 8) == 0x1008
  {
  }

  lemma {:induction false} NarrowItems()
    ensures var items := AllItems([NARROW_LOAD], 0x1000, false);
      |items| <= 5 && items != [] && items[0].Raw? && items[0].w != 0
  {
    NarrowLoad();
    var orig := [NARROW_LOAD];
    var load := Template(NARROW_LOAD, Target(0x1000, 0));
    assert load[0] == Raw(MovWords(TMP_REG, Target(Target(0x1000, 0), DecodeImm19Offset(NARROW_LOAD)))[0]);
    assert load[0].w != 0;
    hide Template, IsBBl, IsLdrLiteral, Decode, MovWords, Target;
    assert Items(orig, 0x1000, 1) == Items(orig, 0x1000, 0) + load && Items(orig, 0x1000, 0) == [];
    assert AllItems(orig, 0x1000, false) == [] + load + [] == load;
  }

  /** A load that goes wrong: at 0x1000, relocated to just behind its literal, whose next four bytes
      are then the block's first instruction. */
  lemma {:induction false} NarrowLiteralFails(m: Machine, eff: Effect) returns (o: Machine)
    ensures AtImage([NARROW_LOAD], 0x1000, false, 0x100C, 0, o, o)
    ensures Image4([NARROW_LOAD], 0x1000, 0x100C, 0) < TWO64
    ensures !Rel(OrigStep(eff, [NARROW_LOAD], 0x1000, 0, o).m, Run(eff, 5, State(o, Image4([NARROW_LOAD], 0x1000, 0x100C, 0))).m)
  {
    hide *;
    var orig := [NARROW_LOAD];
    var items := AllItems(orig, 0x1000, false);
    o := m.(mem := Holding(0x100C, Image(items)));
    NarrowLoad();
    NarrowHeld(o);
    NarrowClear();
    NarrowLiteralExact(eff, orig, 0x1000, false, 0x100C, 0, o, o);
  }

  lemma NarrowClear()
    ensures Clear(0x1008, 4, 0x1000, |[NARROW_LOAD]|)
  {
  }

  lemma {:induction false} NarrowHeld(o: Machine)
    requires o.mem == Holding(0x100C, Image(AllItems([NARROW_LOAD], 0x1000, false)))
    ensures AtImage([NARROW_LOAD], 0x1000, false, 0x100C, 0, o, o) && Read32(o.mem, 0x1008 + 4) != 0
  {
    hide Image, Decode, Holding, AllItems, Read32;
    var items := AllItems([NARROW_LOAD], 0x1000, false);
    NarrowItems();
    FewLits(items);
    HoldingHolds(0x100C, Image(items));
    RawInImage(items, 0);
    assert o == o.(x := o.x[17 := o.x[17]]);
    assert Read32(o.mem, 0x100C + 4 * 0) == Image(items)[0];
  }

  lemma NarrowAgainstWide(o: Machine, r: Machine, rt: nat, t: Addr)
    requires Rel(o, r) && rt < 32 && rt != 17
    ensures Rel(SetReg(o, rt, Read32(o.mem, t)), SetReg(SetReg(r, 17, t), rt, Read64(r.mem, t)))
      <==> rt == 31 || Read32(o.mem, t + 4) == 0
  {
    RelSet(o, r, 17, t);
    var narrow, wide := Read32(o.mem, t), Read64(r.mem, t);
    var a, b := SetReg(o, rt, narrow), SetReg(SetReg(r, 17, t), rt, wide);
    if rt != 31 {
      assert a.x[rt] == narrow && b.x[rt] == wide;
      if Read32(o.mem, t + 4) == 0 {
        RelSet(o, SetReg(r, 17, t), rt, narrow);
      }
    }
  }
}
