/** relo_relocate: rewriting the copied prologue instruction by instruction. */
module Arm64Relocator {
  import opened Arm64Isa
  import opened Arm64Codec
  import opened Arm64Assembler

  // ----- classification, in the order in which it is tried -----

  predicate IsBBl(w: Word) { w / 0x400_0000 % 32 == 5 }                       // mask 0x7C000000
  predicate IsLdrLiteral(w: Word) {                                           // mask 0x3B000000: ignores the SIMD bit
    w / 0x800_0000 % 8 == 3 && w / 0x100_0000 % 4 == 0
  }
  predicate IsAdr(w: Word) { w / 0x100_0000 % 32 == 0x10 && w / 0x8000_0000 == 0 }
  predicate IsAdrp(w: Word) { w / 0x100_0000 % 32 == 0x10 && w / 0x8000_0000 == 1 }
  predicate IsBCond(w: Word) { w / 0x200_0000 == 0x2A }                       // mask 0xFE000000
  predicate IsCompareB(w: Word) { w / 0x200_0000 % 64 == 0x1A }               // mask 0x7E000000
  predicate IsTestB(w: Word) { w / 0x200_0000 % 64 == 0x1B }

  /** opc values 2 and 3 of a literal load reach UNIMPLEMENTED, which aborts. */
  predicate Aborts(w: Word) { !IsBBl(w) && IsLdrLiteral(w) && w / 0x8000_0000 == 1 }

  /** ldrsw, prfm and the SIMD loads with opc 2 or 3, as the architecture decodes them. */
  predicate IsWideLiteral(w: Word) { Decode(w).LdrLitOther? && w / 0x8000_0000 == 1 }

  lemma AbortsExactly(w: Word)
    ensures Aborts(w) <==> IsWideLiteral(w)
  {
  }

  // ----- the rewritten guard: condition inverted, target three instructions ahead -----

  function FlipCond(w: Word): Word { SetImm19(w / 16 * 16 + FlipBit0(w % 16), 3) }
  function FlipBit0(c: nat): nat { if c % 2 == 0 then c + 1 else c - 1 }
  function FlipOp(w: Word): Word { if w / 0x100_0000 % 2 == 0 then w + 0x100_0000 else w - 0x100_0000 }
  function FlipCompare(w: Word): Word { SetImm19(FlipOp(w), 3) }
  function FlipTest(w: Word): Word { SetImm14(FlipOp(w), 3) }

  // ----- what is emitted for one instruction -----

  datatype Item = Raw(w: Word) | LoadLit(value: Addr)

  function MovItems(rd: nat, v: Addr): (s: seq<Item>)
    requires rd < 32
    ensures |s| == 4
  {
    var ws := MovWords(rd, v);
    [Raw(ws[0]), Raw(ws[1]), Raw(ws[2]), Raw(ws[3])]
  }

  function Template(w: Word, vmaddr: Addr): (s: seq<Item>)
    ensures 1 <= |s| <= 5
  {
    if IsBBl(w) then
      [LoadLit(Target(vmaddr, DecodeImm26Offset(w))), Raw(if w / 0x8000_0000 == 1 then BLR_TMP else BR_TMP)]
    else if IsLdrLiteral(w) then
      MovItems(TMP_REG, Target(vmaddr, DecodeImm19Offset(w))) + [Raw(LdrWord(w % 32, TMP_REG))]
    else if IsAdr(w) then
      MovItems(w % 32, Target(vmaddr, DecodeImmHiLoOffset(w)))
    else if IsAdrp(w) then
      MovItems(w % 32, TruncPage(Target(vmaddr, DecodeImmHiLoZero12Offset(w))))
    else if IsBCond(w) then
      [Raw(FlipCond(w)), LoadLit(Target(vmaddr, DecodeImm19Offset(w))), Raw(BR_TMP)]
    else if IsCompareB(w) then
      [Raw(FlipCompare(w)), LoadLit(Target(vmaddr, DecodeImm19Offset(w))), Raw(BR_TMP)]
    else if IsTestB(w) then
      [Raw(FlipTest(w)), LoadLit(Target(vmaddr, DecodeImm14Offset(w))), Raw(BR_TMP)]
    else
      [Raw(w)]
  }

  function TruncPage(a: Addr): Addr { a / 0x1000 * 0x1000 }

  /** Everything emitted for the first k instructions; its length is the value that
      relocated_offset_map gives to instruction k, in words. */
  function Items(orig: seq<Word>, src: Addr, k: nat): (s: seq<Item>)
    requires k <= |orig|
    ensures k <= |s| <= 5 * k
  {
    if k == 0 then [] else Items(orig, src, k - 1) + Template(orig[k - 1], Target(src, 4 * (k - 1)))
  }

  function AllItems(orig: seq<Word>, src: Addr, branch: bool): (s: seq<Item>) {
    Items(orig, src, |orig|) + if branch then [LoadLit(Target(src, 4 * |orig|)), Raw(BR_TMP)] else []
  }

  function CodeWord(i: Item): Word {
    match i case Raw(w) => w case LoadLit(_) => LDR_LITERAL_TMP
  }

  function CodeWords(items: seq<Item>): (ws: seq<Word>)
    ensures |ws| == |items|
  {
    seq<Word>(|items|, p requires 0 <= p < |items| => CodeWord(items[p]))
  }

  /** The literal values in order of their loads, and where each load sits. */
  function Lits(items: seq<Item>): (vs: seq<Addr>) {
    if items == [] then []
    else
      var last := items[|items| - 1];
      Lits(items[..|items| - 1]) + if last.LoadLit? then [last.value] else []
  }

  function Loads(items: seq<Item>): (rs: seq<seq<nat>>)
    ensures |rs| == |Lits(items)|
  {
    if items == [] then []
    else
      Loads(items[..|items| - 1]) + if items[|items| - 1].LoadLit? then [[|items| - 1]] else []
  }

  lemma LoadsInRange(items: seq<Item>)
    ensures forall j :: 0 <= j < |Loads(items)| ==> RefsIn(Loads(items)[j], |items|)
  {
    if items != [] {
      LoadsInRange(items[..|items| - 1]);
    }
  }

  /** The finished block: code with patched loads, then the literal pool. */
  function Image(items: seq<Item>): (ws: seq<Word>)
    ensures |ws| == |items| + 2 * |Lits(items)|
  {
    LoadsInRange(items);
    BindAll(CodeWords(items), Lits(items), Loads(items))
  }

  // ----- the loop -----

  ghost predicate Tracks(asm: Assembler, items: seq<Item>)
    reads asm, asm.owned
  {
    asm.Valid() && asm.words == CodeWords(items) && asm.vals == Lits(items) && asm.refs == Loads(items)
  }

  lemma {:induction false} AppendRaw(items: seq<Item>, w: Word)
    ensures var next := items + [Raw(w)];
      CodeWords(next) == CodeWords(items) + [w] && Lits(next) == Lits(items) && Loads(next) == Loads(items)
  {
    assert (items + [Raw(w)])[..|items|] == items;
  }

  lemma {:induction false} AppendLoad(items: seq<Item>, v: Addr)
    ensures var next := items + [LoadLit(v)];
      && CodeWords(next) == CodeWords(items) + [LDR_LITERAL_TMP]
      && Lits(next) == Lits(items) + [v]
      && Loads(next) == Loads(items) + [[|items|]]
  {
    assert (items + [LoadLit(v)])[..|items|] == items;
  }

  method EmitTracked(asm: Assembler, w: Word, ghost items: seq<Item>)
    requires Tracks(asm, items)
    modifies asm`words
    ensures Tracks(asm, items + [Raw(w)])
  {
    asm.Emit(w);
    AppendRaw(items, w);
  }

  /** A long branch: the guard if there is one, the load of the target, the register branch. */
  function LongBranch(guard: seq<Word>, dst: Addr, through: Word): (s: seq<Item>)
    requires |guard| <= 1
  {
    if guard == [] then [LoadLit(dst), Raw(through)] else [Raw(guard[0]), LoadLit(dst), Raw(through)]
  }

  lemma {:induction false} AppendLoadAndBranch(items: seq<Item>, dst: Addr, through: Word)
    ensures CodeWords(items + [LoadLit(dst), Raw(through)]) == CodeWords(items) + [LDR_LITERAL_TMP, through]
    ensures Lits(items + [LoadLit(dst), Raw(through)]) == Lits(items) + [dst]
    ensures Loads(items + [LoadLit(dst), Raw(through)]) == Loads(items) + [[|items|]]
  {
    var a := items + [LoadLit(dst)];
    assert items + [LoadLit(dst), Raw(through)] == a + [Raw(through)];
    AppendLoad(items, dst);
    AppendRaw(a, through);
  }

  lemma {:induction false} AppendLongBranch(items: seq<Item>, guard: seq<Word>, dst: Addr, through: Word)
    requires |guard| <= 1
    ensures CodeWords(items + LongBranch(guard, dst, through)) == CodeWords(items) + guard + [LDR_LITERAL_TMP, through]
    ensures Lits(items + LongBranch(guard, dst, through)) == Lits(items) + [dst]
    ensures Loads(items + LongBranch(guard, dst, through)) == Loads(items) + [[|items| + |guard|]]
  {
    if guard == [] {
      AppendLoadAndBranch(items, dst, through);
    } else {
      var before := items + [Raw(guard[0])];
      assert items + LongBranch(guard, dst, through) == before + [LoadLit(dst), Raw(through)];
      assert [guard[0]] == guard;
      AppendRaw(items, guard[0]);
      AppendLoadAndBranch(before, dst, through);
    }
  }

  /** The part shared by b, bl, b.cond, cbz/cbnz, tbz/tbnz and LiteralLdrBranch: a fresh
      literal label, the guard if there is one, the load and the register branch. */
  method EmitLongBranch(asm: Assembler, guard: seq<Word>, dst: Addr, through: Word)
    requires asm.Valid() && |guard| <= 1
    modifies asm
    ensures asm.Valid() && asm.words == old(asm.words) + guard + [LDR_LITERAL_TMP, through]
    ensures asm.vals == old(asm.vals) + [dst]
    ensures asm.refs == old(asm.refs) + [[|old(asm.words)| + |guard|]]
    ensures fresh(asm.owned - old(asm.owned))
  {
    var lbl := new RelocLabel(dst);
    asm.AppendRelocLabel(lbl);
    if |guard| == 1 {
      asm.Emit(guard[0]);
      assert [guard[0]] == guard;
    }
    ghost var at := |asm.words|;
    asm.LdrTmp(lbl);
    asm.Emit(through);
    assert [] + [at] == [at];
  }

  method EmitTrackedBranch(asm: Assembler, guard: seq<Word>, dst: Addr, through: Word, ghost items: seq<Item>)
    requires Tracks(asm, items) && |guard| <= 1
    modifies asm
    ensures Tracks(asm, items + LongBranch(guard, dst, through))
    ensures fresh(asm.owned - old(asm.owned))
  {
    EmitLongBranch(asm, guard, dst, through);
    AppendLongBranch(items, guard, dst, through);
  }

  lemma {:induction false} AppendMov(items: seq<Item>, rd: nat, v: Addr)
    requires rd < 32
    ensures var next := items + MovItems(rd, v);
      CodeWords(next) == CodeWords(items) + MovWords(rd, v) && Lits(next) == Lits(items) && Loads(next) == Loads(items)
  {
    hide MovWords, CodeWords, Lits, Loads;
    var ws := MovWords(rd, v);
    AppendRaw(items, ws[0]);
    AppendRaw(items + [Raw(ws[0])], ws[1]);
    AppendRaw(items + [Raw(ws[0])] + [Raw(ws[1])], ws[2]);
    AppendRaw(items + [Raw(ws[0])] + [Raw(ws[1])] + [Raw(ws[2])], ws[3]);
    assert items + [Raw(ws[0])] + [Raw(ws[1])] + [Raw(ws[2])] + [Raw(ws[3])] == items + MovItems(rd, v);
    assert [ws[0]] + [ws[1]] + [ws[2]] + [ws[3]] == ws;
  }

  method EmitMov(asm: Assembler, rd: nat, v: Addr, ghost items: seq<Item>)
    requires Tracks(asm, items) && rd < 32
    modifies asm`words
    ensures Tracks(asm, items + MovItems(rd, v))
  {
    asm.Mov(rd, v);
    AppendMov(items, rd, v);
  }

  /** One iteration of the loop: cur is relo_cur_src_vmaddr. */
  method RelocateOne(asm: Assembler, inst: Word, cur: Addr, ghost items: seq<Item>)
    requires Tracks(asm, items)
    modifies asm
    ensures Tracks(asm, items + Template(inst, cur))
    ensures fresh(asm.owned - old(asm.owned))
  {
    if IsBBl(inst) {
      var dst := Target(cur, DecodeImm26Offset(inst));
      EmitTrackedBranch(asm, [], dst, if inst / 0x8000_0000 == 1 then BLR_TMP else BR_TMP, items);
    } else if IsLdrLiteral(inst) {
      EmitMov(asm, TMP_REG, Target(cur, DecodeImm19Offset(inst)), items);
      ghost var moved := items + MovItems(TMP_REG, Target(cur, DecodeImm19Offset(inst)));
      EmitTracked(asm, LdrWord(inst % 32, TMP_REG), moved);
      assert moved + [Raw(LdrWord(inst % 32, TMP_REG))] == items + Template(inst, cur);
    } else if IsAdr(inst) {
      EmitMov(asm, inst % 32, Target(cur, DecodeImmHiLoOffset(inst)), items);
    } else if IsAdrp(inst) {
      EmitMov(asm, inst % 32, TruncPage(Target(cur, DecodeImmHiLoZero12Offset(inst))), items);
    } else if IsBCond(inst) {
      EmitTrackedBranch(asm, [FlipCond(inst)], Target(cur, DecodeImm19Offset(inst)), BR_TMP, items);
    } else if IsCompareB(inst) {
      EmitTrackedBranch(asm, [FlipCompare(inst)], Target(cur, DecodeImm19Offset(inst)), BR_TMP, items);
    } else if IsTestB(inst) {
      EmitTrackedBranch(asm, [FlipTest(inst)], Target(cur, DecodeImm14Offset(inst)), BR_TMP, items);
    } else {
      EmitTracked(asm, inst, items);
    }
  }

  /** offsets is relocated_offset_map for the instructions handled so far. */
  ghost predicate OffsetsOf(orig: seq<Word>, src: Addr, offsets: seq<nat>) {
    && |offsets| <= |orig|
    && forall k :: 0 <= k < |offsets| ==> offsets[k] == 4 * |Items(orig, src, k)|
  }

  lemma {:induction false} AppendOffset(orig: seq<Word>, src: Addr, offsets: seq<nat>)
    requires OffsetsOf(orig, src, offsets) && |offsets| < |orig|
    ensures OffsetsOf(orig, src, offsets + [4 * |Items(orig, src, |offsets|)|])
  {}

  lemma {:induction false} NothingRelocated(orig: seq<Word>, src: Addr)
    ensures OffsetsOf(orig, src, []) && Items(orig, src, 0) == []
  {}

  /** One turn of the loop at cursor == |offsets|. */
  method RelocateNext(asm: Assembler, orig: seq<Word>, src: Addr, offsets: seq<nat>) returns (offsets': seq<nat>)
    requires OffsetsOf(orig, src, offsets) && |offsets| < |orig|
    requires Tracks(asm, Items(orig, src, |offsets|))
    modifies asm
    ensures |offsets'| == |offsets| + 1 && OffsetsOf(orig, src, offsets')
    ensures Tracks(asm, Items(orig, src, |offsets'|))
    ensures fresh(asm.owned - old(asm.owned))
  {
    var cursor := |offsets|;
    AppendOffset(orig, src, offsets);
    offsets' := offsets + [asm.BufferSize()];
    RelocateOne(asm, orig[cursor], Target(src, 4 * cursor), Items(orig, src, cursor));
  }

  method RelocateAll(asm: Assembler, orig: seq<Word>, src: Addr) returns (ok: bool, offsets: seq<nat>)
    requires Tracks(asm, [])
    modifies asm
    ensures ok <==> forall k :: 0 <= k < |orig| ==> !IsWideLiteral(orig[k])
    ensures ok ==> Tracks(asm, Items(orig, src, |orig|)) && OffsetsOf(orig, src, offsets) && |offsets| == |orig|
    ensures fresh(asm.owned - old(asm.owned))
  {
    offsets := [];
    NothingRelocated(orig, src);
    hide *;
    while |offsets| < |orig|
      invariant |offsets| <= |orig|
      invariant Tracks(asm, Items(orig, src, |offsets|))
      invariant fresh(asm.owned - old(asm.owned))
      invariant forall k :: 0 <= k < |offsets| ==> !IsWideLiteral(orig[k])
      invariant OffsetsOf(orig, src, offsets)
    {
      AbortsExactly(orig[|offsets|]);
      if Aborts(orig[|offsets|]) {
        return false, offsets;
      }
      offsets := RelocateNext(asm, orig, src, offsets);
    }
    ok := true;
  }

  /** The branch to the rest of the original, then RelocBind. */
  method Finish(asm: Assembler, ghost items: seq<Item>, rest: Addr, branch: bool)
    requires Tracks(asm, items)
    modifies asm, asm.owned
    ensures asm.words == Image(items + if branch then [LoadLit(rest), Raw(BR_TMP)] else [])
  {
    ghost var all := items + if branch then [LoadLit(rest), Raw(BR_TMP)] else [];
    if branch {
      EmitTrackedBranch(asm, [], rest, BR_TMP, items);
    } else {
      assert all == items;
    }
    assert Tracks(asm, all);
    asm.RelocBind();
  }

  /** relo_relocate over the copied words. It gives the finished block, and for every
      instruction the byte offset of its image; none when a literal load aborts it. */
  method Relocate(orig: seq<Word>, src: Addr, branch: bool) returns (ok: bool, image: seq<Word>, offsets: seq<nat>)
    ensures ok <==> forall k :: 0 <= k < |orig| ==> !(Decode(orig[k]).LdrLitOther? && orig[k] / 0x8000_0000 == 1)
    ensures ok ==> image == Image(AllItems(orig, src, branch))
    ensures ok ==> |offsets| == |orig| && OffsetsOf(orig, src, offsets)
  {
    var asm := new Assembler();
    ok, offsets := RelocateAll(asm, orig, src);
    image := [];
    if ok {
      Finish(asm, Items(orig, src, |orig|), Target(src, 4 * |orig|), branch);
      image := asm.words;
    }
  }
}
