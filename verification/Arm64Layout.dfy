/** Where things are in the finished block, and what the emitted words decode to. */
module Arm64Layout {
  import opened Arm64Isa
  import opened Arm64Codec
  import opened Arm64Assembler
  import opened Arm64Relocator

  function LitIndex(items: seq<Item>, p: nat): nat
    requires p <= |items|
  {
    |Lits(items[..p])|
  }

  /** The load at p is the only reference of literal number LitIndex(items, p). */
  lemma {:induction false} LoadOfItem(items: seq<Item>, p: nat)
    requires p < |items| && items[p].LoadLit?
    ensures var j := LitIndex(items, p);
      j < |Lits(items)| && Lits(items)[j] == items[p].value && Loads(items)[j] == [p]
    decreases |items|
  {
    var init := items[..|items| - 1];
    if p < |init| {
      LoadOfItem(init, p);
      assert init[..p] == items[..p];
    } else {
      assert items[..p] == init;
    }
  }

  lemma {:induction false} ItemOfLoad(items: seq<Item>, j: nat)
    requires j < |Loads(items)|
    ensures |Loads(items)[j]| == 1
    ensures var p := Loads(items)[j][0]; p < |items| && items[p].LoadLit? && LitIndex(items, p) == j
    decreases |items|
  {
    var init := items[..|items| - 1];
    if j < |Loads(init)| {
      ItemOfLoad(init, j);
      assert init[..Loads(items)[j][0]] == items[..Loads(items)[j][0]];
    } else {
      assert items[..|items| - 1] == init;
    }
  }

  lemma {:induction false} ItemsWellLinked(items: seq<Item>)
    ensures WellLinked(|items|, Lits(items), Loads(items))
  {
    LoadsInRange(items);
    forall j | 0 <= j < |Loads(items)| ensures NoDuplicates(Loads(items)[j]) {
      ItemOfLoad(items, j);
    }
    forall i, j, r | 0 <= i < |Loads(items)| && 0 <= j < |Loads(items)| && r in Loads(items)[i] && r in Loads(items)[j]
      ensures i == j
    {
      ItemOfLoad(items, i);
      ItemOfLoad(items, j);
    }
  }

  lemma {:induction false} RawInImage(items: seq<Item>, p: nat)
    requires p < |items| && items[p].Raw?
    ensures Image(items)[p] == items[p].w
  {
    ItemsWellLinked(items);
    forall j | 0 <= j < |Loads(items)| ensures p !in Loads(items)[j] {
      ItemOfLoad(items, j);
    }
    BindKeepsOthers(CodeWords(items), Lits(items), Loads(items), p);
  }

  /** A literal load of the finished block is an ldr x17 of exactly its literal's slot. */
  lemma {:induction false} LoadInImage(items: seq<Item>, p: nat)
    requires p < |items| && items[p].LoadLit?
    requires 4 * |Image(items)| < 0x10_0000
    ensures var slot := |items| + 2 * LitIndex(items, p);
      && slot + 2 <= |Image(items)|
      && Decode(Image(items)[p]) == LdrLitX(17, 4 * slot - 4 * p)
      && Image(items)[slot] == items[p].value % TWO32
      && Image(items)[slot + 1] == items[p].value / TWO32
  {
    SlotOfLoad(items, p);
    LoadLeadsToSlot(items, p);
  }

  lemma {:induction false} LoadLeadsToSlot(items: seq<Item>, p: nat)
    requires p < |items| && items[p].LoadLit? && 4 * |Image(items)| < 0x10_0000
    ensures p < |Image(items)| && Decode(Image(items)[p]) == LdrLitX(17, 4 * (|items| + 2 * LitIndex(items, p)) - 4 * p)
  {
    var j := LitIndex(items, p);
    ItemsWellLinked(items);
    LoadOfItem(items, p);
    assert p in Loads(items)[j];
    LoadsReachSlots(CodeWords(items), Lits(items), Loads(items), j, p);
    hide CodeWords, Lits, Loads, LitIndex, BindAll;
    DecodeLdrLit(Image(items)[p], 4 * (|items| + 2 * j) - 4 * p);
  }

  lemma {:induction false} SlotOfLoad(items: seq<Item>, p: nat)
    requires p < |items| && items[p].LoadLit?
    ensures var slot := |items| + 2 * LitIndex(items, p);
      && slot + 2 <= |Image(items)|
      && Image(items)[slot] == items[p].value % TWO32
      && Image(items)[slot + 1] == items[p].value / TWO32
  {
    var j := LitIndex(items, p);
    ItemsWellLinked(items);
    LoadOfItem(items, p);
    BindPlacesData(CodeWords(items), Lits(items), Loads(items), j);
    hide CodeWords, Lits, Loads, LitIndex, BindAll;
    SliceOfTwo(Image(items), |items| + 2 * j, Literal(items[p].value));
  }

  lemma SliceOfTwo(ws: seq<Word>, p: nat, pair: seq<Word>)
    requires p + 2 <= |ws| && ws[p..p + 2] == pair
    ensures |pair| == 2 && ws[p] == pair[0] && ws[p + 1] == pair[1]
  {
    assert ws[p..p + 2][0] == ws[p] && ws[p..p + 2][1] == ws[p + 1];
  }

  lemma DecodeLdrLit(w: Word, off: int)
    requires w % 0x20 == 17 && w / 0x100_0000 == 0x58 && DecodeImm19Offset(w) == off
    ensures Decode(w) == LdrLitX(17, off)
  {
    assert w / 0x400_0000 == 0x16 && w / 0x800_0000 == 0xB && w / 0x4000_0000 == 1 && w / 0x8000_0000 == 0;
    DecodersAgreeWithIsa(w);
  }

  // ----- emitted words -----

  lemma DecodeFixed()
    ensures Decode(BR_TMP) == Br(17) && Decode(BLR_TMP) == Blr(17)
  {}

  /** A move-wide word: op is the top nine bits. */
  lemma MoveWideFields(op: nat, rd: nat, imm: nat, hw: nat)
    requires op < 0x200 && rd < 32 && imm < 0x1_0000 && hw < 4
    ensures var w := op * 0x80_0000 + 0x20_0000 * hw + 0x20 * imm + rd;
      && w % 32 == rd && w / 32 % 0x1_0000 == imm && w / 0x20_0000 % 4 == hw && w / 0x80_0000 == op
  {
    var w := op * 0x80_0000 + 0x20_0000 * hw + 0x20 * imm + rd;
    assert w / 32 == 0x1_0000 * (op * 4 + hw) + imm;
    assert w / 0x20_0000 == op * 4 + hw;
  }

  lemma Above23(w: Word)
    ensures w / 0x100_0000 == w / 0x80_0000 / 2 && w / 0x200_0000 == w / 0x80_0000 / 4
    ensures w / 0x400_0000 == w / 0x80_0000 / 8 && w / 0x800_0000 == w / 0x80_0000 / 16
  {}

  /** A word whose top nine bits say movz or movk. */
  lemma DecodeMoveWide(w: Word)
    requires w / 0x80_0000 == 0x1A5 || w / 0x80_0000 == 0x1E5
    ensures Decode(w) == if w / 0x80_0000 == 0x1A5 then Movz(w % 32, w / 0x20_0000 % 4, w / 32 % 0x1_0000)
                         else Movk(w % 32, w / 0x20_0000 % 4, w / 32 % 0x1_0000)
  {
    Above23(w);
    assert w / 0x8000_0000 == w / 0x80_0000 / 0x100;
  }

  lemma DecodeMovz(rd: nat, imm: nat)
    requires rd < 32 && imm < 0x1_0000
    ensures Decode(MovzWord(rd, imm)) == Movz(rd, 0, imm)
  {
    hide Decode;
    MoveWideFields(0x1A5, rd, imm, 0);
    DecodeMoveWide(MovzWord(rd, imm));
  }

  lemma DecodeMovk(rd: nat, imm: nat, hw: nat)
    requires rd < 32 && imm < 0x1_0000 && hw < 4
    ensures Decode(MovkWord(rd, imm, hw)) == Movk(rd, hw, imm)
  {
    hide Decode;
    MoveWideFields(0x1E5, rd, imm, hw);
    DecodeMoveWide(MovkWord(rd, imm, hw));
  }

  lemma DecodeLdr(rt: nat, rn: nat)
    requires rt < 32 && rn < 32
    ensures Decode(LdrWord(rt, rn)) == LdrX(rt, rn, 0)
  {
    hide Decode;
    LdrFields(rt, rn);
    DecodeLdrX(LdrWord(rt, rn));
  }

  lemma DecodeLdrX(w: Word)
    requires w / 0x400 == 0x3E_5000 && w / 0x40_0000 == 0x3E5 && w / 0x80_0000 == 0x1F2 && w / 0x100_0000 == 0xF9
    requires w / 0x200_0000 == 0x7C && w / 0x400_0000 == 0x3E && w / 0x800_0000 == 0x1F
    ensures Decode(w) == LdrX(w % 32, w / 32 % 32, 0)
  {
  }

  lemma LdrFields(rt: nat, rn: nat)
    requires rt < 32 && rn < 32
    ensures var w := 0xF940_0000 + 0x20 * rn + rt;
      && w % 32 == rt && w / 32 % 32 == rn && w / 0x400 == 0x3E_5000
      && w / 0x40_0000 == 0x3E5 && w / 0x80_0000 == 0x1F2 && w / 0x100_0000 == 0xF9
      && w / 0x200_0000 == 0x7C && w / 0x400_0000 == 0x3E && w / 0x800_0000 == 0x1F
  {
    var w := 0xF940_0000 + 0x20 * rn + rt;
    assert w / 32 == 0x7CA_0000 + rn;
  }

  // ----- inverted guards -----

  /** The coarser fields of a word follow from the finer ones. */
  lemma TopFields(w: Word)
    ensures w / 0x200_0000 == w / 0x100_0000 / 2 && w / 0x400_0000 == w / 0x100_0000 / 4
    ensures w / 0x800_0000 == w / 0x100_0000 / 8 && w / 0x8000_0000 == w / 0x100_0000 / 128
    ensures w / 0x100_0000 == w / 0x8_0000 / 32
  {}

  /** A word of top byte t whose imm19 is 3. */
  lemma Guard19(f: nat, t: nat, r: nat)
    requires t < 256 && r < 32 && f == t * 0x100_0000 + 96 + r
    ensures f < TWO32 && f / 0x100_0000 == t && f % 32 == r && f / 0x20 % 0x8_0000 == 3
  {
    assert f / 0x20 == t * 0x8_0000 + 3;
  }

  /** A word of top 13 bits u whose imm14 is 3. */
  lemma Guard14(f: nat, u: nat, r: nat)
    requires u < 0x2000 && r < 32 && f == u * 0x8_0000 + 96 + r
    ensures f < TWO32 && f / 0x8_0000 == u && f % 32 == r && f / 0x20 % 0x4000 == 3
  {
    assert f / 0x20 == u * 0x4000 + 3;
  }

  lemma DecodeAsBCond(f: Word)
    requires f / 0x100_0000 == 0x54
    ensures Decode(f) == BCond(f % 16, 4 * SImm(Imm19(f), 0x4_0000))
  {
    TopFields(f);
  }

  lemma DecodeAsCompare(f: Word)
    requires f / 0x200_0000 % 64 == 0x1A
    ensures Decode(f) == CmpB(f / 0x8000_0000 == 1, f / 0x100_0000 % 2 == 1, f % 32, 4 * SImm(Imm19(f), 0x4_0000))
  {
    var t := f / 0x200_0000;
    assert t == 0x1A || t == 0x5A;
    assert f / 0x400_0000 == t / 2 && f / 0x800_0000 == t / 4;
    assert f / 0x100_0000 == 2 * t || f / 0x100_0000 == 2 * t + 1;
  }

  lemma DecodeAsTest(f: Word)
    requires f / 0x200_0000 % 64 == 0x1B
    ensures Decode(f) == TestB(f / 0x8000_0000 * 32 + f / 0x8_0000 % 32, f / 0x100_0000 % 2 == 1, f % 32,
                               4 * SImm(Imm14(f), 0x2000))
  {
    var t := f / 0x200_0000;
    assert t == 0x1B || t == 0x5B;
    assert f / 0x400_0000 == t / 2 && f / 0x800_0000 == t / 4;
    assert f / 0x100_0000 == 2 * t || f / 0x100_0000 == 2 * t + 1;
  }

  lemma DecodeFlipCond(w: Word)
    requires w / 0x100_0000 == 0x54
    ensures Decode(FlipCond(w)) == BCond(FlipBit0(w % 16), 12)
  {
    hide *;
    FlipCondWord(w);
    DecodeAsBCond(FlipCond(w));
    GuardOffset(3);
  }

  lemma GuardOffset(v: nat)
    requires v == 3
    ensures 4 * SImm(v, 0x4_0000) == 12
  {}

  lemma FlipCondWord(w: Word)
    requires w / 0x100_0000 == 0x54
    ensures var f := FlipCond(w); f / 0x100_0000 == 0x54 && f % 16 == FlipBit0(w % 16) && Imm19(f) == 3
  {
    hide FlipBit0;
    var v := w / 16 * 16 + FlipBit0(w % 16);
    FlipCondFields(w);
    Guard19(SetImm19(v, 3), 0x54, v % 32);
    Mod32Mod16(v);
    Mod32Mod16(SetImm19(v, 3));
  }

  lemma Mod32Mod16(v: nat)
    ensures v % 32 % 16 == v % 16
  {
    By16(2 * (v / 32) + v % 32 / 16, v % 32 % 16);
  }

  lemma By16(q: nat, s: nat)
    requires s < 16
    ensures (16 * q + s) % 16 == s && (16 * q + s) / 16 == q
  {}

  lemma FlipCondFields(w: Word)
    ensures var v := w / 16 * 16 + FlipBit0(w % 16);
      v / 0x100_0000 == w / 0x100_0000 && v % 16 == FlipBit0(w % 16)
  {
    var v := w / 16 * 16 + FlipBit0(w % 16);
    By16(w / 16, FlipBit0(w % 16));
    Nest(v);
    Nest(w);
  }

  lemma Nest(v: nat)
    ensures v / 0x100_0000 == v / 16 / 0x10_0000
  {}

  lemma FlipOpFields(w: Word)
    ensures var v := FlipOp(w);
      && v / 0x100_0000 == (if w / 0x100_0000 % 2 == 0 then w / 0x100_0000 + 1 else w / 0x100_0000 - 1)
      && v / 0x8_0000 % 32 == w / 0x8_0000 % 32
      && v % 32 == w % 32
  {
    var t, r := w / 0x100_0000, w % 0x100_0000;
    var u := if t % 2 == 0 then t + 1 else t - 1;
    SplitAt24(w, t, r);
    SplitAt24(FlipOp(w), u, r);
  }

  lemma SplitAt24(v: nat, t: nat, r: nat)
    requires r < 0x100_0000 && v == t * 0x100_0000 + r
    ensures v / 0x100_0000 == t && v / 0x8_0000 % 32 == r / 0x8_0000 && v % 32 == r % 32
  {
    var q, s := r / 0x8_0000, r % 0x8_0000;
    By19(32 * t + q, s);
    By32(t, q);
    By32(t * 0x8_0000 + r / 32, r % 32);
  }

  lemma By19(q: nat, s: nat)
    requires s < 0x8_0000
    ensures (q * 0x8_0000 + s) / 0x8_0000 == q
  {}

  lemma By32(q: nat, s: nat)
    requires s < 32
    ensures (32 * q + s) % 32 == s
  {}

  lemma FlipTop(t: nat)
    ensures var u := if t % 2 == 0 then t + 1 else t - 1;
      u / 2 == t / 2 && u % 2 == 1 - t % 2 && u / 128 == t / 128
  {
    By128(t / 2, t % 2);
    By128(t / 2, 1 - t % 2);
  }

  lemma By128(h: nat, s: nat)
    requires s < 2
    ensures (2 * h + s) / 2 == h && (2 * h + s) % 2 == s && (2 * h + s) / 128 == h / 64
  {
    assert 2 * h + s == 128 * (h / 64) + (2 * (h % 64) + s);
  }

  lemma DecodeFlipCompare(w: Word)
    requires w / 0x200_0000 % 64 == 0x1A
    ensures Decode(FlipCompare(w)) == CmpB(w / 0x8000_0000 == 1, w / 0x100_0000 % 2 != 1, w % 32, 12)
  {
    var v := FlipOp(w);
    FlipOpFields(w);
    FlipTop(w / 0x100_0000);
    Guard19(SetImm19(v, 3), v / 0x100_0000, v % 32);
    TopFields(w);
    TopFields(SetImm19(v, 3));
    DecodeAsCompare(SetImm19(v, 3));
  }

  lemma DecodeFlipTest(w: Word)
    requires w / 0x200_0000 % 64 == 0x1B
    ensures Decode(FlipTest(w))
      == TestB(w / 0x8000_0000 * 32 + w / 0x8_0000 % 32, w / 0x100_0000 % 2 != 1, w % 32, 12)
  {
    hide *;
    FlipTestWord(w);
    DecodeAsTest(FlipTest(w));
    TestOffset(3);
  }

  lemma TestOffset(v: nat)
    requires v == 3
    ensures 4 * SImm(v, 0x2000) == 12
  {}

  lemma FlipTestWord(w: Word)
    requires w / 0x200_0000 % 64 == 0x1B
    ensures var f := FlipTest(w);
      && f / 0x200_0000 % 64 == 0x1B && f / 0x8000_0000 == w / 0x8000_0000 && f / 0x8_0000 % 32 == w / 0x8_0000 % 32
      && (f / 0x100_0000 % 2 == 1) == (w / 0x100_0000 % 2 != 1) && f % 32 == w % 32 && Imm14(f) == 3
  {
    hide FlipOp;
    var v := FlipOp(w);
    FlipOpFields(w);
    FlipTop(w / 0x100_0000);
    Guard14(SetImm14(v, 3), v / 0x8_0000, v % 32);
    TopFields(w);
    TopFields(v);
    TopFields(SetImm14(v, 3));
  }

  // ----- the relocator's classes are the architecture's -----

  lemma BranchInsn(w: Word)
    requires IsBBl(w)
    ensures Decode(w) == if w / 0x8000_0000 == 1 then BL(DecodeImm26Offset(w)) else B(DecodeImm26Offset(w))
  {
    DecodersAgreeWithIsa(w);
  }

  lemma LiteralInsn(w: Word)
    requires !IsBBl(w) && IsLdrLiteral(w) && !Decode(w).LdrLitOther?
    ensures Decode(w) == LdrLitW(w % 32, DecodeImm19Offset(w)) || Decode(w) == LdrLitX(w % 32, DecodeImm19Offset(w))
  {
    DecodersAgreeWithIsa(w);
  }

  lemma AdrInsn(w: Word)
    requires !IsBBl(w) && !IsLdrLiteral(w) && (IsAdr(w) || IsAdrp(w))
    ensures Decode(w) == if IsAdr(w) then Adr(w % 32, DecodeImmHiLoOffset(w)) else Adrp(w % 32, 0x1000 * DecodeImmHiLoOffset(w))
  {
    DecodersAgreeWithIsa(w);
  }

  predicate IsGuarded(w: Word) {
    !IsBBl(w) && !IsLdrLiteral(w) && !IsAdr(w) && !IsAdrp(w) && (IsBCond(w) || IsCompareB(w) || IsTestB(w))
  }

  /** A conditional instruction, its inverted guard and its target offset. */
  lemma GuardedInsn(w: Word)
    requires IsGuarded(w) && !Decode(w).Unallocated?
    ensures var i := Decode(w);
      if IsBCond(w) then
        i == BCond(w % 16, DecodeImm19Offset(w)) && Decode(FlipCond(w)) == BCond(FlipBit0(w % 16), 12)
      else if IsCompareB(w) then
        i == CmpB(w / 0x8000_0000 == 1, w / 0x100_0000 % 2 == 1, w % 32, DecodeImm19Offset(w))
        && Decode(FlipCompare(w)) == CmpB(i.is64, !i.onNonZero, w % 32, 12)
      else
        i == TestB(w / 0x8000_0000 * 32 + w / 0x8_0000 % 32, w / 0x100_0000 % 2 == 1, w % 32, DecodeImm14Offset(w))
        && Decode(FlipTest(w)) == TestB(i.bit, !i.onNonZero, w % 32, 12)
  {
    hide FlipCond, FlipCompare, FlipTest;
    DecodersAgreeWithIsa(w);
    if IsBCond(w) {
      TopOfCond(w);
      DecodeAsBCond(w);
      DecodeFlipCond(w);
    } else if IsCompareB(w) {
      DecodeAsCompare(w);
      DecodeFlipCompare(w);
    } else {
      DecodeAsTest(w);
      DecodeFlipTest(w);
    }
  }

  lemma TopOfCond(w: Word)
    requires IsGuarded(w) && IsBCond(w) && !Decode(w).Unallocated?
    ensures w / 0x100_0000 == 0x54
  {}

  lemma PlainInsn(w: Word)
    requires !IsBBl(w) && !IsLdrLiteral(w) && !IsAdr(w) && !IsAdrp(w) && !IsGuarded(w)
    ensures var i := Decode(w);
      i.Movz? || i.Movk? || i.LdrX? || i.Br? || i.Blr? || i.Ret? || i == Other(w)
  {}
}
