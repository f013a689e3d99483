/** The immediate decoders and encoders of inst_decode_encode_kit.h. The macros bits and set_bits are written as division and
    remainder; shifts of negative offsets round down, as arithmetic shifts do. */
module Arm64Codec {
  import opened Arm64Isa

  /** SignExtend for a field of M bits, given as span == 2^M: when the sign bit is set, every
      bit from M upwards is set and the low M bits stay. */
  function SignExtend(x: Addr, span: nat): int
    requires span == 0x1_0000 || span == 0x20_0000 || span == 0x1000_0000
  {
    if x / (span / 2) % 2 == 1 then Signed64(x % span + (TWO64 - span)) else Signed64(x)
  }

  function DecodeImm14Offset(w: Word): int { SignExtend(4 * (w / 0x20 % 0x4000), 0x1_0000) }
  function DecodeImm19Offset(w: Word): int { SignExtend(4 * (w / 0x20 % 0x8_0000), 0x20_0000) }
  function DecodeImm26Offset(w: Word): int { SignExtend(4 * (w % 0x400_0000), 0x1000_0000) }

  function DecodeImmHiLoOffset(w: Word): int {
    SignExtend(w / 0x2000_0000 % 4 + 4 * (w / 0x20 % 0x8_0000), 0x20_0000)
  }
  function DecodeImmHiLoZero12Offset(w: Word): int { 0x1000 * DecodeImmHiLoOffset(w) }

  function SetImm14(w: Word, v: nat): Word
    requires v < 0x4000
  {
    w / 0x8_0000 * 0x8_0000 + 0x20 * v + w % 0x20
  }

  function SetImm19(w: Word, v: nat): Word
    requires v < 0x8_0000
  {
    w / 0x100_0000 * 0x100_0000 + 0x20 * v + w % 0x20
  }

  function EncodeImm14Offset(w: Word, off: int): Word { SetImm14(w, off / 4 % 0x4000) }
  function EncodeImm19Offset(w: Word, off: int): Word { SetImm19(w, off / 4 % 0x8_0000) }
  function EncodeImm26Offset(w: Word, off: int): Word { w / 0x400_0000 * 0x400_0000 + off / 4 % 0x400_0000 }

  function EncodeImmHiLoOffset(w: Word, off: int): Word {
    w / 0x8000_0000 * 0x8000_0000 + 0x2000_0000 * (off % 4)
    + w / 0x100_0000 % 32 * 0x100_0000 + 0x20 * (off / 4 % 0x8_0000) + w % 0x20
  }
  function EncodeImmHiLoZero12Offset(w: Word, off: int): Word { EncodeImmHiLoOffset(w, off / 0x1000) }

  // ----- the kit against the architecture -----

  /** The five decoders compute what the architecture says the fields mean. */
  lemma DecodersAgreeWithIsa(w: Word)
    ensures DecodeImm14Offset(w) == 4 * SImm(Imm14(w), 0x2000)
    ensures DecodeImm19Offset(w) == 4 * SImm(Imm19(w), 0x4_0000)
    ensures DecodeImm26Offset(w) == 4 * SImm(Imm26(w), 0x200_0000)
    ensures DecodeImmHiLoOffset(w) == SImm(ImmHiLo(w), 0x10_0000)
  {
    hide SignExtend, SImm;
    ScaledField(w / 0x20 % 0x4000, 0x4000, 0x1_0000);
    ScaledField(w / 0x20 % 0x8_0000, 0x8_0000, 0x20_0000);
    ScaledField(w % 0x400_0000, 0x400_0000, 0x1000_0000);
    FieldExtend(w / 0x2000_0000 % 4 + 4 * (w / 0x20 % 0x8_0000), 0x20_0000);
  }

  lemma FieldExtend(v: nat, span: nat)
    requires v < span
    requires span == 0x1_0000 || span == 0x20_0000 || span == 0x1000_0000
    ensures SignExtend(v, span) == SImm(v, span / 2)
  {
    assert v / (span / 2) == if v < span / 2 then 0 else 1;
  }

  lemma ScaledField(v: nat, n: nat, span: nat)
    requires v < n && span == 4 * n
    requires span == 0x1_0000 || span == 0x20_0000 || span == 0x1000_0000
    ensures SignExtend(4 * v, span) == 4 * SImm(v, n / 2)
  {
    FieldExtend(4 * v, span);
    hide *;
    assert span / 2 == 4 * (n / 2);
    ScaledImm(v, n / 2);
  }

  lemma ScaledImm(v: nat, half: nat)
    ensures SImm(4 * v, 4 * half) == 4 * SImm(v, half)
  {}

  predicate Aligned(off: int, unit: nat, bound: int)
    requires unit > 0
  {
    off % unit == 0 && -bound <= off < bound
  }

  /** Decoding an encoded offset gives it back exactly when it is a multiple of the unit
      within the field's signed range; the other fields of the word stay. */
  lemma {:induction false} Imm19RoundTrip(w: Word, off: int)
    ensures DecodeImm19Offset(EncodeImm19Offset(w, off)) == off <==> Aligned(off, 4, 0x10_0000)
    ensures EncodeImm19Offset(w, off) % 0x20 == w % 0x20
    ensures EncodeImm19Offset(w, off) / 0x100_0000 == w / 0x100_0000
  {
    var v := off / 4 % 0x8_0000;
    SetImm19Fields(w, v);
    DecodersAgreeWithIsa(EncodeImm19Offset(w, off));
    SignedField(off, 0x8_0000);
  }

  lemma SetImm19Fields(w: Word, v: nat)
    requires v < 0x8_0000
    ensures Imm19(SetImm19(w, v)) == v
    ensures SetImm19(w, v) % 0x20 == w % 0x20
    ensures SetImm19(w, v) / 0x100_0000 == w / 0x100_0000
  {}

  lemma SignedField(off: int, n: nat)
    requires n == 0x4000 || n == 0x8_0000 || n == 0x400_0000
    ensures 4 * SImm(off / 4 % n, n / 2) == off <==> Aligned(off, 4, 2 * n)
  {
    if Aligned(off, 4, 2 * n) {
      assert off / 4 % n == if off >= 0 then off / 4 else off / 4 + n;
    }
  }

  lemma {:induction false} Imm14RoundTrip(w: Word, off: int)
    ensures DecodeImm14Offset(EncodeImm14Offset(w, off)) == off <==> Aligned(off, 4, 0x8000)
    ensures EncodeImm14Offset(w, off) % 0x20 == w % 0x20
    ensures EncodeImm14Offset(w, off) / 0x8_0000 == w / 0x8_0000
  {
    var v := off / 4 % 0x4000;
    var e := EncodeImm14Offset(w, off);
    assert e / 0x20 % 0x4000 == v;
    DecodersAgreeWithIsa(e);
    SignedField(off, 0x4000);
  }

  lemma {:induction false} Imm26RoundTrip(w: Word, off: int)
    ensures DecodeImm26Offset(EncodeImm26Offset(w, off)) == off <==> Aligned(off, 4, 0x800_0000)
    ensures EncodeImm26Offset(w, off) / 0x400_0000 == w / 0x400_0000
  {
    var v := off / 4 % 0x400_0000;
    SetImm26Fields(w / 0x400_0000, v);
    DecodersAgreeWithIsa(EncodeImm26Offset(w, off));
    SignedField(off, 0x400_0000);
  }

  lemma SetImm26Fields(top: nat, v: nat)
    requires v < 0x400_0000
    ensures (top * 0x400_0000 + v) % 0x400_0000 == v && (top * 0x400_0000 + v) / 0x400_0000 == top
  {}

  lemma {:induction false} ImmHiLoRoundTrip(w: Word, off: int)
    ensures DecodeImmHiLoOffset(EncodeImmHiLoOffset(w, off)) == off <==> -0x10_0000 <= off < 0x10_0000
    ensures DecodeImmHiLoZero12Offset(EncodeImmHiLoZero12Offset(w, off)) == off
      <==> Aligned(off, 0x1000, 0x1_0000_0000)
  {
    HiLo(w, off);
    HiLo(w, off / 0x1000);
  }

  lemma HiLo(w: Word, off: int)
    ensures DecodeImmHiLoOffset(EncodeImmHiLoOffset(w, off)) == off <==> -0x10_0000 <= off < 0x10_0000
  {
    var lo, hi := off % 4, off / 4 % 0x8_0000;
    var e := EncodeImmHiLoOffset(w, off);
    HiLoFields(w / 0x8000_0000, lo, w / 0x100_0000 % 32, hi, w % 0x20);
    DecodersAgreeWithIsa(e);
    assert ImmHiLo(e) == 4 * hi + lo;
    HiLoRange(off);
  }

  lemma HiLoFields(op: nat, lo: nat, fixed: nat, hi: nat, rd: nat)
    requires op < 2 && lo < 4 && fixed < 32 && hi < 0x8_0000 && rd < 32
    ensures var e := op * 0x8000_0000 + 0x2000_0000 * lo + fixed * 0x100_0000 + 0x20 * hi + rd;
            e / 0x2000_0000 % 4 == lo && e / 0x20 % 0x8_0000 == hi
  {
    var e := op * 0x8000_0000 + 0x2000_0000 * lo + fixed * 0x100_0000 + 0x20 * hi + rd;
    assert e / 0x2000_0000 == 4 * op + lo;
    assert e / 0x20 == 0x8_0000 * (op * 128 + lo * 32 + fixed) + hi;
  }

  lemma HiLoRange(off: int)
    ensures SImm(4 * (off / 4 % 0x8_0000) + off % 4, 0x10_0000) == off <==> -0x10_0000 <= off < 0x10_0000
  {
    if -0x10_0000 <= off < 0x10_0000 {
      assert off / 4 % 0x8_0000 == if off >= 0 then off / 4 else off / 4 + 0x8_0000;
    }
  }
}
