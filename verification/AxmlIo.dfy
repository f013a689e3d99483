/** Little-endian output and input of the binary XML codec. */
module AxmlIo {

  datatype Option<+T> = None | Some(value: T)

  type Byte = b: int | 0 <= b < 0x100
  type Unit = u: int | 0 <= u < 0x1_0000          // a UTF-16 code unit, or any short
  type Word = w: int | 0 <= w < 0x1_0000_0000     // a Java int by its bits
  type Str = seq<Unit>

  const MAX_INT := 0x7FFF_FFFF

  function Signed(w: Word): (r: int)
    ensures -0x8000_0000 <= r <= 0x7FFF_FFFF && (r == w || r == w - 0x1_0000_0000)
  {
    if w <= MAX_INT then w else w - 0x1_0000_0000
  }

  function Le2(h: Unit): seq<Byte> { [h % 0x100, h / 0x100] }

  function Le4(w: Word): seq<Byte> { [w % 0x100, w / 0x100 % 0x100, w / 0x1_0000 % 0x100, w / 0x100_0000] }

  /** The word whose low and high halves these are. */
  function Halves(lo: Unit, hi: Unit): Word { lo + 0x1_0000 * hi }

  function FromLe(b0: Byte, b1: Byte, b2: Byte, b3: Byte): Word { b0 + 0x100 * b1 + 0x1_0000 * b2 + 0x100_0000 * b3 }

  lemma FromLe4(w: Word)
    ensures FromLe(Le4(w)[0], Le4(w)[1], Le4(w)[2], Le4(w)[3]) == w
  {
    assert w == w % 0x100 + 0x100 * (w / 0x100);
    assert w / 0x100 / 0x100 == w / 0x1_0000;
    assert w / 0x1_0000 / 0x100 == w / 0x100_0000;
  }

  /** Two shorts written one after the other are one int. */
  lemma ShortsAreInt(lo: Unit, hi: Unit)
    ensures Le2(lo) + Le2(hi) == Le4(Halves(lo, hi))
  {
    var w: int := Halves(lo, hi);
    var a: int, b: int, c: int, d: int := lo % 0x100, lo / 0x100, hi % 0x100, hi / 0x100;
    assert lo == a + 0x100 * b && hi == c + 0x100 * d;
    assert w == a + 0x100 * (b + 0x100 * (c + 0x100 * d));
    Bytewise(a, b, c, d);
  }

  lemma Bytewise(a: int, b: int, c: int, d: int)
    requires 0 <= a < 0x100 && 0 <= b < 0x100 && 0 <= c < 0x100 && 0 <= d < 0x100
    ensures var w := a + 0x100 * (b + 0x100 * (c + 0x100 * d));
      w % 0x100 == a && w / 0x100 % 0x100 == b && w / 0x1_0000 % 0x100 == c && w / 0x100_0000 == d
  {
    var w := a + 0x100 * (b + 0x100 * (c + 0x100 * d));
    assert w / 0x100 == b + 0x100 * (c + 0x100 * d);
    assert w / 0x1_0000 == c + 0x100 * d;
  }

  /** A short and two bytes written one after the other are one int. */
  lemma ShortAndBytesAreInt(lo: Unit, b2: Byte, b3: Byte)
    ensures Le2(lo) + [b2] + [b3] == Le4(lo + 0x1_0000 * b2 + 0x100_0000 * b3)
  {
    ShortsAreInt(lo, b2 + 0x100 * b3);
    assert Le2(b2 + 0x100 * b3) == [b2] + [b3];
    assert lo + 0x1_0000 * b2 + 0x100_0000 * b3 == Halves(lo, b2 + 0x100 * b3);
  }

  /** The complete ints of a stream: what readInt delivers at positions 0, 4, 8 and so on. */
  function WordsOf(bs: seq<Byte>): seq<Word> {
    seq(|bs| / 4, i requires 0 <= i < |bs| / 4 => FromLe(bs[4 * i], bs[4 * i + 1], bs[4 * i + 2], bs[4 * i + 3]))
  }

  ghost predicate Aligned(bs: seq<Byte>) { |bs| % 4 == 0 }

  /** Reading undoes writing: an int written to a whole number of ints is the next one read. */
  lemma {:induction false} WordWritten(bs: seq<Byte>, w: Word)
    requires Aligned(bs)
    ensures Aligned(bs + Le4(w)) && WordsOf(bs + Le4(w)) == WordsOf(bs) + [w]
  {
    FromLe4(w);
    var all := bs + Le4(w);
    assert |WordsOf(all)| == |bs| / 4 + 1;
    forall i | 0 <= i < |WordsOf(all)| ensures WordsOf(all)[i] == (WordsOf(bs) + [w])[i] {
      if i < |bs| / 4 {
        assert WordsOf(all)[i] == WordsOf(bs)[i];
      }
    }
  }

  class IntWriter {
    var out: seq<Byte>
    var pos: nat

    ghost predicate Valid()
      reads this
    {
      pos == |out|
    }

    constructor ()
      ensures Valid() && out == []
    {
      out, pos := [], 0;
    }

    method WriteByte(b: Byte)
      requires Valid()
      modifies this
      ensures Valid() && out == old(out) + [b]
    {
      out := out + [b];
      pos := pos + 1;
    }

    method WriteShort(h: Unit)
      requires Valid()
      modifies this
      ensures Valid() && out == old(out) + Le2(h)
    {
      out := out + [h % 0x100];
      out := out + [h / 0x100 % 0x100];
      pos := pos + 2;
    }

    /** Writes the four bytes of x, the lowest first, shifting x right in between. */
    method WriteInt(w: Word)
      requires Valid()
      modifies this
      ensures Valid() && out == old(out) + Le4(w)
      ensures Aligned(old(out)) ==> Aligned(out) && WordsOf(out) == WordsOf(old(out)) + [w]
    {
      var x: Word := w;
      out := out + [x % 0x100];
      x := x / 0x100;
      out := out + [x % 0x100];
      x := x / 0x100;
      out := out + [x % 0x100];
      x := x / 0x100;
      out := out + [x % 0x100];
      pos := pos + 4;
      assert w / 0x100 / 0x100 == w / 0x1_0000 && w / 0x1_0000 / 0x100 == w / 0x100_0000;
      assert out == old(out) + Le4(w);
      if Aligned(old(out)) {
        WordWritten(old(out), w);
      }
    }
  }

  method WriteShorts(w: IntWriter, lo: Unit, hi: Unit)
    requires w.Valid() && Aligned(w.out)
    modifies w
    ensures w.Valid() && Aligned(w.out) && WordsOf(w.out) == WordsOf(old(w.out)) + [Halves(lo, hi)]
  {
    w.WriteShort(lo);
    w.WriteShort(hi);
    ShortsAreInt(lo, hi);
    assert w.out == old(w.out) + Le4(Halves(lo, hi));
    WordWritten(old(w.out), Halves(lo, hi));
  }

  /** A byte shifted left by 8 * i bits. */
  function Shifted(b: Byte, i: nat): int {
    if i == 0 then b else if i == 1 then 0x100 * b else if i == 2 then 0x1_0000 * b else 0x100_0000 * b
  }

  /** The first i bytes at p, each at its place in the int. */
  ghost function Gathered(bs: seq<Byte>, p: nat, i: nat): int
    requires p + i <= |bs|
  {
    if i == 0 then 0 else Gathered(bs, p, i - 1) + Shifted(bs[p + i - 1], i - 1)
  }

  lemma GatheredFour(bs: seq<Byte>, p: nat)
    requires p + 4 <= |bs|
    ensures Gathered(bs, p, 4) == FromLe(bs[p], bs[p + 1], bs[p + 2], bs[p + 3])
  {
    assert Gathered(bs, p, 0) == 0 && Gathered(bs, p, 1) == Shifted(bs[p], 0);
    assert Gathered(bs, p, 2) == Gathered(bs, p, 1) + Shifted(bs[p + 1], 1);
  }

  class IntReader {
    const stream: seq<Byte>
    var position: nat

    /** Reading ints only keeps the position a multiple of four. */
    ghost predicate Valid()
      reads this
    {
      position <= |stream| && position % 4 == 0
    }

    /** The int that the next readInt delivers, as an index of WordsOf(stream). */
    ghost function At(): nat
      reads this
      requires Valid()
    {
      position / 4
    }

    constructor (stream: seq<Byte>)
      ensures Valid() && this.stream == stream && At() == 0
    {
      this.stream, position := stream, 0;
    }

    method ReadInt() returns (ok: bool, r: Word)
      requires Valid()
      modifies this
      ensures ok <==> old(At()) < |WordsOf(stream)|
      ensures ok ==> Valid() && At() == old(At()) + 1 && r == WordsOf(stream)[old(At())]
    {
      ghost var p := position;
      var result: int, i: int := 0, 0;
      while i != 4
        invariant 0 <= i <= 4 && position == p + i <= |stream|
        invariant result == Gathered(stream, p, i)
        decreases 4 - i
      {
        if position >= |stream| {
          return false, 0;
        }
        result := result + Shifted(stream[position], i);
        position := position + 1;
        i := i + 1;
      }
      GatheredFour(stream, p);
      assert 4 * (p / 4) == p;
      return true, result;
    }

    method ReadIntArray(length: nat) returns (ok: bool, r: seq<Word>)
      requires Valid()
      modifies this
      ensures ok <==> old(At()) + length <= |WordsOf(stream)|
      ensures ok ==> Valid() && At() == old(At()) + length && r == WordsOf(stream)[old(At())..old(At()) + length]
    {
      ghost var p := At();
      r := [];
      var left := length;
      while left > 0
        invariant Valid() && 0 <= left <= length && At() == p + length - left <= |WordsOf(stream)|
        invariant r == WordsOf(stream)[p..At()]
      {
        var w;
        ok, w := ReadInt();
        if !ok {
          return false, [];
        }
        r := r + [w];
        left := left - 1;
      }
      return true, r;
    }

    method SkipInt() returns (ok: bool)
      requires Valid()
      modifies this
      ensures ok <==> old(At()) < |WordsOf(stream)|
      ensures ok ==> Valid() && At() == old(At()) + 1
    {
      var skipped := if |stream| - position < 4 then |stream| - position else 4;
      position := position + skipped;
      return skipped == 4;
    }
  }
}
