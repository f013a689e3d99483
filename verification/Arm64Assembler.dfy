/** The arm64 assembler buffer with its literal labels: Ldr links a load to a label, and
    RelocBind appends every label's data behind the code and back-patches the loads.
    Every emission is a multiple of four bytes, so the buffer is kept as words, and a
    recorded place is a word index: pc_offset / 4. */
module Arm64Assembler {
  import opened Arm64Isa
  import opened Arm64Codec

  const TMP_REG: nat := 17

  // ----- emitted words (assembler-arm64.h) -----

  const LDR_LITERAL_TMP: Word := 0x5800_0011   // ldr x17, #0
  const BR_TMP: Word := 0xD61F_0220
  const BLR_TMP: Word := 0xD63F_0220

  /** ldr xT, [xN]: the assembler emits the 64-bit load for W registers too. */
  function LdrWord(rt: nat, rn: nat): Word
    requires rt < 32 && rn < 32
  {
    0xF940_0000 + 0x20 * rn + rt
  }

  function MovzWord(rd: nat, imm: nat): Word
    requires rd < 32 && imm < 0x1_0000
  {
    0xD280_0000 + 0x20 * imm + rd
  }

  function MovkWord(rd: nat, imm: nat, hw: nat): Word
    requires rd < 32 && imm < 0x1_0000 && hw < 4
  {
    0xF280_0000 + 0x20_0000 * hw + 0x20 * imm + rd
  }

  /** The two words of an 8-byte datum, low half first. */
  function Literal(v: Addr): (s: seq<Word>) { [v % 0x1_0000_0000, v / 0x1_0000_0000] }

  // ----- what binding does, on values -----

  ghost predicate RefsIn(refs: seq<nat>, n: nat) {
    forall i :: 0 <= i < |refs| ==> refs[i] < n
  }

  /** link_confused_instructions for a label bound at byte offset pos. */
  function LinkRefs(words: seq<Word>, refs: seq<nat>, pos: nat): (out: seq<Word>)
    requires RefsIn(refs, |words|)
    ensures |out| == |words|
    decreases |refs|
  {
    if refs == [] then words
    else
      var r := refs[0];
      LinkRefs(words[r := EncodeImm19Offset(words[r], pos - 4 * r)], refs[1..], pos)
  }

  /** RelocBind: the labels in order, each bound at the current end of the buffer. */
  function BindAll(words: seq<Word>, vals: seq<Addr>, refs: seq<seq<nat>>): (out: seq<Word>)
    requires |vals| == |refs|
    requires forall j :: 0 <= j < |refs| ==> RefsIn(refs[j], |words|)
    ensures |out| == |words| + 2 * |vals|
    decreases |vals|
  {
    if vals == [] then words
    else
      var linked := LinkRefs(words, refs[0], 4 * |words|) + Literal(vals[0]);
      assert forall j :: 0 <= j < |refs| - 1 ==> refs[1..][j] == refs[j + 1] && RefsIn(refs[j + 1], |words|);
      BindAll(linked, vals[1..], refs[1..])
  }

  lemma {:induction false} LinkRefsAt(words: seq<Word>, refs: seq<nat>, pos: nat, p: nat)
    requires RefsIn(refs, |words|) && p < |words|
    requires forall i, j :: 0 <= i < j < |refs| ==> refs[i] != refs[j]
    ensures LinkRefs(words, refs, pos)[p]
      == if p in refs then EncodeImm19Offset(words[p], pos - 4 * p) else words[p]
    decreases |refs|
  {
    if refs != [] {
      var r := refs[0];
      var words' := words[r := EncodeImm19Offset(words[r], pos - 4 * r)];
      LinkRefsAt(words', refs[1..], pos, p);
      assert refs == [r] + refs[1..];
      assert p in refs <==> r == p || p in refs[1..];
    }
  }

  ghost predicate NoDuplicates(s: seq<nat>) { forall i, j :: 0 <= i < j < |s| ==> s[i] != s[j] }

  /** Everything recorded with a label lies in the code and belongs to one label only. */
  ghost predicate WellLinked(n: nat, vals: seq<Addr>, refs: seq<seq<nat>>) {
    && |vals| == |refs|
    && (forall j :: 0 <= j < |refs| ==> RefsIn(refs[j], n) && NoDuplicates(refs[j]))
    && (forall i, j, r :: 0 <= i < |refs| && 0 <= j < |refs| && r in refs[i] && r in refs[j] ==> i == j)
  }

  /** Binding leaves every word alone that no label refers to. */
  lemma {:induction false} BindKeepsOthers(words: seq<Word>, vals: seq<Addr>, refs: seq<seq<nat>>, p: nat)
    requires WellLinked(|words|, vals, refs) && p < |words|
    requires forall j :: 0 <= j < |refs| ==> p !in refs[j]
    ensures BindAll(words, vals, refs)[p] == words[p]
    decreases |vals|
  {
    if vals != [] {
      LinkRefsAt(words, refs[0], 4 * |words|, p);
      var linked := LinkRefs(words, refs[0], 4 * |words|) + Literal(vals[0]);
      WellLinkedTail(|words|, vals, refs);
      BindKeepsOthers(linked, vals[1..], refs[1..], p);
    }
  }

  lemma WellLinkedTail(n: nat, vals: seq<Addr>, refs: seq<seq<nat>>)
    requires WellLinked(n, vals, refs) && vals != []
    ensures WellLinked(n + 2, vals[1..], refs[1..])
  {}

  /** A recorded load is rewritten once, to the distance of its own label's data slot. */
  lemma {:induction false} BindPatchesRef(words: seq<Word>, vals: seq<Addr>, refs: seq<seq<nat>>, j: nat, p: nat)
    requires WellLinked(|words|, vals, refs) && p < |words|
    requires j < |refs| && p in refs[j]
    ensures BindAll(words, vals, refs)[p] == EncodeImm19Offset(words[p], 4 * (|words| + 2 * j) - 4 * p)
    decreases |vals|
  {
    LinkRefsAt(words, refs[0], 4 * |words|, p);
    var linked := LinkRefs(words, refs[0], 4 * |words|) + Literal(vals[0]);
    WellLinkedTail(|words|, vals, refs);
    if j == 0 {
      BindKeepsOthers(linked, vals[1..], refs[1..], p);
    } else {
      assert p !in refs[0];
      BindPatchesRef(linked, vals[1..], refs[1..], j - 1, p);
    }
  }

  lemma BeyondCode(n: nat, vals: seq<Addr>, refs: seq<seq<nat>>, p: nat)
    requires WellLinked(n, vals, refs) && p >= n
    ensures forall j :: 0 <= j < |refs| ==> p !in refs[j]
  {}

  /** Every label's slot ends up holding the label's data. */
  lemma {:induction false} BindPlacesData(words: seq<Word>, vals: seq<Addr>, refs: seq<seq<nat>>, j: nat)
    requires WellLinked(|words|, vals, refs) && j < |vals|
    ensures BindAll(words, vals, refs)[|words| + 2 * j..|words| + 2 * j + 2] == Literal(vals[j])
    decreases |vals|
  {
    var linked := LinkRefs(words, refs[0], 4 * |words|) + Literal(vals[0]);
    WellLinkedTail(|words|, vals, refs);
    if j == 0 {
      BeyondCode(|words|, vals, refs, |words|);
      BeyondCode(|words|, vals, refs, |words| + 1);
      BindKeepsOthers(linked, vals[1..], refs[1..], |words|);
      BindKeepsOthers(linked, vals[1..], refs[1..], |words| + 1);
    } else {
      BindPlacesData(linked, vals[1..], refs[1..], j - 1);
    }
  }

  ghost predicate LoadReaches(words: seq<Word>, out: seq<Word>, r: nat, slot: nat) {
    && r < |words| && r < |out|
    && 4 * r + DecodeImm19Offset(out[r]) == slot
    && out[r] % 0x20 == words[r] % 0x20
    && out[r] / 0x100_0000 == words[r] / 0x100_0000
  }

  lemma PatchedLoad(w: Word, r: nat, slot: nat)
    requires 4 * r <= slot < 0x10_0000 && slot % 4 == 0
    ensures var out := EncodeImm19Offset(w, slot - 4 * r);
      && 4 * r + DecodeImm19Offset(out) == slot
      && out % 0x20 == w % 0x20
      && out / 0x100_0000 == w / 0x100_0000
  {
    Imm19RoundTrip(w, slot - 4 * r);
    hide EncodeImm19Offset, DecodeImm19Offset;
  }

  lemma {:induction false} LoadsReachSlots(words: seq<Word>, vals: seq<Addr>, refs: seq<seq<nat>>, j: nat, r: nat)
    requires WellLinked(|words|, vals, refs)
    requires 4 * (|words| + 2 * |vals|) < 0x10_0000
    requires j < |refs| && r in refs[j]
    ensures LoadReaches(words, BindAll(words, vals, refs), r, 4 * (|words| + 2 * j))
  {
    BindPatchesRef(words, vals, refs, j, r);
    hide *;
    PatchedLoad(words[r], r, 4 * (|words| + 2 * j));
  }

  /** After binding a buffer below 2^20 bytes, each recorded load decodes to the offset of
      its label's slot, the slot holds the label's value, and nothing else has changed. */
  lemma {:induction false} RelocBindCorrect(words: seq<Word>, vals: seq<Addr>, refs: seq<seq<nat>>)
    requires WellLinked(|words|, vals, refs)
    requires 4 * (|words| + 2 * |vals|) < 0x10_0000
    ensures var out := BindAll(words, vals, refs);
      && (forall j, r :: 0 <= j < |refs| && r in refs[j] ==> LoadReaches(words, out, r, 4 * (|words| + 2 * j)))
      && (forall j :: 0 <= j < |vals| ==>
            out[|words| + 2 * j..|words| + 2 * j + 2] == Literal(vals[j]))
      && (forall p :: 0 <= p < |words| && (forall j :: 0 <= j < |refs| ==> p !in refs[j]) ==> out[p] == words[p])
  {
    forall j, r | 0 <= j < |refs| && r in refs[j]
      ensures LoadReaches(words, BindAll(words, vals, refs), r, 4 * (|words| + 2 * j))
    {
      LoadsReachSlots(words, vals, refs, j, r);
    }
    forall j | 0 <= j < |vals|
      ensures BindAll(words, vals, refs)[|words| + 2 * j..|words| + 2 * j + 2] == Literal(vals[j])
    {
      BindPlacesData(words, vals, refs, j);
    }
    forall p | 0 <= p < |words| && (forall j :: 0 <= j < |refs| ==> p !in refs[j])
      ensures BindAll(words, vals, refs)[p] == words[p]
    {
      BindKeepsOthers(words, vals, refs, p);
    }
  }

  // ----- the mutable assembler -----

  class RelocLabel {
    var pos: nat
    var refs: seq<nat>
    const data: Addr

    /** withData: a label bound to 0 until RelocBind. */
    constructor (value: Addr)
      ensures pos == 0 && refs == [] && data == value
    {
      pos, refs, data := 0, [], value;
    }

    method LinkTo(pcOffset: nat)
      modifies this`refs
      ensures refs == old(refs) + [pcOffset]
    {
      refs := refs + [pcOffset];
    }
  }

  class Assembler {
    var words: seq<Word>
    var labels: seq<RelocLabel>
    ghost var vals: seq<Addr>          // data of the labels
    ghost var refs: seq<seq<nat>>      // recorded loads of the labels
    ghost var owned: set<RelocLabel>   // the labels

    constructor ()
      ensures Valid() && words == [] && labels == [] && vals == [] && refs == [] && owned == {}
    {
      words, labels, vals, refs, owned := [], [], [], [], {};
    }

    ghost predicate Valid()
      reads this, owned
    {
      && |labels| == |vals| == |refs|
      && (forall j :: 0 <= j < |labels| ==> labels[j] in owned)
      && (forall i, j :: 0 <= i < j < |labels| ==> labels[i] != labels[j])
      && (forall j :: 0 <= j < |labels| ==> labels[j].data == vals[j] && labels[j].refs == refs[j])
      && (forall j :: 0 <= j < |refs| ==> RefsIn(refs[j], |words|))
    }

    function BufferSize(): nat
      reads this
    {
      4 * |words|
    }

    method Emit(w: Word)
      requires Valid()
      modifies this`words
      ensures Valid() && words == old(words) + [w]
    {
      words := words + [w];
    }

    method AppendRelocLabel(lbl: RelocLabel)
      requires Valid() && lbl !in owned && lbl.refs == []
      modifies this`labels, this`vals, this`refs, this`owned
      ensures Valid() && labels == old(labels) + [lbl] && owned == old(owned) + {lbl}
      ensures vals == old(vals) + [lbl.data] && refs == old(refs) + [[]]
    {
      labels, vals, refs := labels + [lbl], vals + [lbl.data], refs + [[]];
      owned := owned + {lbl};
    }

    /** ldr x17, label for the label appended last: the offset is left 0 and the place is
        recorded with the label. */
    method LdrTmp(lbl: RelocLabel)
      requires Valid() && labels != [] && labels[|labels| - 1] == lbl && lbl.pos == 0
      modifies this`words, this`refs, lbl`refs
      ensures Valid() && words == old(words) + [LDR_LITERAL_TMP]
      ensures refs == old(refs)[|labels| - 1 := old(refs)[|labels| - 1] + [|old(words)|]]
    {
      lbl.LinkTo(BufferSize() / 4);
      words := words + [LDR_LITERAL_TMP];
      refs := refs[|labels| - 1 := lbl.refs];
    }

    /** movz and three movk. */
    method Mov(rd: nat, imm: Addr)
      requires Valid() && rd < 32
      modifies this`words
      ensures Valid() && words == old(words) + MovWords(rd, imm)
    {
      var w0, w1 := imm % 0x1_0000_0000, imm / 0x1_0000_0000;
      var h0, h1, h2, h3 := w0 % 0x1_0000, w0 / 0x1_0000, w1 % 0x1_0000, w1 / 0x1_0000;
      HalfWords(imm);
      Emit(MovzWord(rd, h0));
      Emit(MovkWord(rd, h1, 1));
      Emit(MovkWord(rd, h2, 2));
      Emit(MovkWord(rd, h3, 3));
    }

    method PseudoBind(lbl: RelocLabel)
      requires RefsIn(lbl.refs, |words|)
      modifies this`words, lbl`pos
      ensures words == LinkRefs(old(words), lbl.refs, 4 * |old(words)|)
      ensures lbl.pos == 4 * |old(words)|
    {
      lbl.pos := BufferSize();
      var i := 0;
      while i < |lbl.refs|
        invariant i <= |lbl.refs| && |words| == |old(words)|
        invariant RefsIn(lbl.refs[i..], |words|)
        invariant lbl.pos == 4 * |old(words)|
        invariant LinkRefs(words, lbl.refs[i..], lbl.pos) == LinkRefs(old(words), lbl.refs, lbl.pos)
      {
        var r := lbl.refs[i];
        assert lbl.refs[i..][0] == r && lbl.refs[i..][1..] == lbl.refs[i + 1..];
        words := words[r := EncodeImm19Offset(words[r], lbl.pos - 4 * r)];
        i := i + 1;
      }
    }

    method RelocBind()
      requires Valid()
      modifies this`words, owned
      ensures words == BindAll(old(words), vals, refs)
      ensures forall j :: 0 <= j < |labels| ==> labels[j].pos == 4 * (|old(words)| + 2 * j)
    {
      var i := 0;
      while i < |labels|
        invariant i <= |labels| && |words| == |old(words)| + 2 * i
        invariant forall j :: 0 <= j < |labels| ==> labels[j].refs == refs[j]
        invariant forall j :: i <= j < |labels| ==> RefsIn(refs[j], |words|)
        invariant forall j :: 0 <= j < i ==> labels[j].pos == 4 * (|old(words)| + 2 * j)
        invariant BindAll(words, vals[i..], refs[i..]) == BindAll(old(words), vals, refs)
      {
        assert vals[i..][0] == labels[i].data && vals[i..][1..] == vals[i + 1..];
        assert refs[i..][0] == labels[i].refs && refs[i..][1..] == refs[i + 1..];
        PseudoBind(labels[i]);
        words := words + Literal(labels[i].data);
        i := i + 1;
      }
    }
  }

  lemma HalfWords(imm: Addr)
    ensures var w0, w1 := imm % 0x1_0000_0000, imm / 0x1_0000_0000;
      && w0 % 0x1_0000 == imm % 0x1_0000
      && w0 / 0x1_0000 == imm / 0x1_0000 % 0x1_0000
      && w1 / 0x1_0000 == imm / 0x1_0000_0000_0000
  {}

  function MovWords(rd: nat, imm: Addr): (s: seq<Word>)
    requires rd < 32
    ensures |s| == 4
  {
    [MovzWord(rd, imm % 0x1_0000),
     MovkWord(rd, imm / 0x1_0000 % 0x1_0000, 1),
     MovkWord(rd, imm / 0x1_0000_0000 % 0x1_0000, 2),
     MovkWord(rd, imm / 0x1_0000_0000_0000, 3)]
  }
}
