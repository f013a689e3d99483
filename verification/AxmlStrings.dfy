/** The UTF-16 string pool of a binary XML file: how strings are packed and read back. */
module AxmlStrings {
  import opened AxmlIo

  const POOL_TYPE: Word := 0x001C_0001
  const POOL_HEADER := 28

  // ----- writing -----

  /** The shorts of one raw string: its length cut to 16 bits, its units, a zero, and another
      zero when that keeps the strings 4-aligned. */
  function Shorts(s: Str): (r: seq<Unit>)
    ensures |r| % 2 == 0 && 2 * |r| == RawSize(s)
  {
    [|s| % 0x1_0000] + s + if |s| % 2 == 0 then [0] else [0, 0]
  }

  /** A raw string is a whole number of ints: the length, the units, and one or two zeros. */
  lemma {:induction false} ShortsFormat(s: Str)
    ensures var r := Shorts(s);
      && |r| % 2 == 0 && |s| + 2 <= |r| <= |s| + 3
      && r[0] == |s| % 0x1_0000 && r[1..|s| + 1] == s && forall k :: |s| < k < |r| ==> r[k] == 0
  {
  }

  /** RawString.size: (n * 2 + 4) & 2 is 2 exactly for odd n. */
  function RawSize(s: Str): nat { |s| * 2 + 4 + if |s| % 2 == 0 then 0 else 2 }

  function Pack(hs: seq<Unit>): (r: seq<Word>)
    requires |hs| % 2 == 0
    ensures |r| == |hs| / 2
  {
    if hs == [] then [] else Pack(hs[..|hs| - 2]) + [Halves(hs[|hs| - 2], hs[|hs| - 1])]
  }

  function PackAll(strs: seq<Str>): (r: seq<Word>)
    ensures 4 * |r| == RawSizes(strs)
  {
    if strs == [] then [] else PackAll(strs[..|strs| - 1]) + Pack(Shorts(strs[|strs| - 1]))
  }

  /** The byte offset of the string after strs. */
  function RawSizes(strs: seq<Str>): nat {
    if strs == [] then 0 else RawSizes(strs[..|strs| - 1]) + RawSize(strs[|strs| - 1])
  }

  function Offsets(strs: seq<Str>): (r: seq<Word>)
    requires RawSizes(strs) <= MAX_INT
    ensures |r| == |strs|
    ensures forall i :: 0 <= i < |strs| ==> r[i] == RawSizes(strs[..i]) <= RawSizes(strs)
  {
    if strs == [] then [] else
      var r := Offsets(strs[..|strs| - 1]) + [RawSizes(strs[..|strs| - 1])];
      assert forall i :: 0 <= i < |strs| - 1 ==> strs[..|strs| - 1][..i] == strs[..i];
      r
  }

  /** The size that preWrite puts into the pool's header. */
  function PoolSize(strs: seq<Str>): nat { RawSizes(strs) + POOL_HEADER + |strs| * 4 }

  function PoolWords(strs: seq<Str>): (r: seq<Word>)
    requires PoolSize(strs) <= MAX_INT
    ensures 4 * |r| == PoolSize(strs)
  {
    PoolHeader(strs) + Offsets(strs) + PackAll(strs)
  }

  // ----- reading -----

  /** A StringBlock with no styles. */
  datatype Block = Block(offsets: seq<Word>, strings: seq<Word>)

  /** getShort; none is the exception for an index outside the array. */
  function GetShort(words: seq<Word>, offset: int): Option<Unit> {
    if offset < 0 || offset / 4 >= |words| then None
    else if offset % 4 / 2 == 0 then Some(words[offset / 4] % 0x1_0000)
    else Some(words[offset / 4] / 0x1_0000)
  }

  datatype Lookup = Null | Got(text: Str) | Throws

  /** The n units that follow the one at this offset. */
  function Units(words: seq<Word>, offset: int, n: nat): Option<Str> {
    if n == 0 then Some([])
    else match Units(words, offset, n - 1)
      case None => None
      case Some(s) =>
        match GetShort(words, offset + 2 * n)
        case None => None
        case Some(u) => Some(s + [u])
  }

  function StringAt(b: Block, index: int): Lookup {
    if index < 0 || index >= |b.offsets| then Null
    else match GetShort(b.strings, Signed(b.offsets[index]))
      case None => Throws
      case Some(n) =>
        match Units(b.strings, Signed(b.offsets[index]), n)
        case None => Throws
        case Some(s) => Got(s)
  }

  method GetString(b: Block, index: int) returns (r: Lookup)
    ensures r == StringAt(b, index)
  {
    if index < 0 || index >= |b.offsets| {
      return Null;
    }
    var offset := Signed(b.offsets[index]);
    var length := GetShort(b.strings, offset);
    if length.None? {
      return Throws;
    }
    var left, result := length.value, [];
    ghost var start, n := offset, length.value;
    while left != 0
      invariant 0 <= left <= n && offset == start + 2 * (n - left)
      invariant Units(b.strings, start, n - left) == Some(result)
      decreases left
    {
      offset := offset + 2;
      var u := GetShort(b.strings, offset);
      if u.None? {
        UnitsStop(b.strings, start, n - left + 1, n);
        return Throws;
      }
      result := result + [u.value];
      left := left - 1;
    }
    return Got(result);
  }

  lemma {:induction false} UnitsStop(words: seq<Word>, offset: int, k: nat, n: nat)
    requires k <= n && Units(words, offset, k).None?
    ensures Units(words, offset, n).None?
  {
    if k < n {
      UnitsStop(words, offset, k, n - 1);
    }
  }

  /** StringBlock.read from position p of the words, and the position after it; none when it
      throws: wrong type, sizes not multiples of four or negative, or end of file. */
  function BlockAt(ws: seq<Word>, p: nat): Option<(Block, nat)> {
    if p + 7 > |ws| || ws[p] != POOL_TYPE then None
    else if Signed(ws[p + 2]) < 0 || Signed(ws[p + 3]) < 0 then None
    else BlockBody(ws, p + 7, ws[p + 2], ws[p + 3], Signed(ws[p + 1]), Signed(ws[p + 5]), Signed(ws[p + 6]))
  }

  /** The arrays that follow the header. */
  function BlockBody(ws: seq<Word>, q: nat, count: nat, styles: nat, chunkSize: int, stringsOffset: int, stylesOffset: int):
      Option<(Block, nat)>
  {
    var size := (if stylesOffset == 0 then chunkSize else stylesOffset) - stringsOffset;
    var q1 := q + count + styles;
    if q1 > |ws| || size % 4 != 0 || size < 0 || q1 + size / 4 > |ws| then None
    else
      var b, q2 := Block(ws[q..q + count], ws[q1..q1 + size / 4]), q1 + size / 4;
      if stylesOffset == 0 then Some((b, q2))
      else
        var styleSize := chunkSize - stylesOffset;
        if styleSize % 4 != 0 || styleSize < 0 || q2 + styleSize / 4 > |ws| then None
        else Some((b, q2 + styleSize / 4))
  }

  method ReadArrays(reader: IntReader, count: nat, styles: nat, chunkSize: int, stringsOffset: int, stylesOffset: int)
      returns (ok: bool, b: Block)
    requires reader.Valid()
    modifies reader
    ensures var r := BlockBody(WordsOf(reader.stream), old(reader.At()), count, styles, chunkSize, stringsOffset, stylesOffset);
      (ok <==> r.Some?) && (ok ==> reader.Valid() && r == Some((b, reader.At())))
  {
    hide WordsOf;
    b := Block([], []);
    var offsets;
    ok, offsets := reader.ReadIntArray(count);
    if !ok { return false, b; }
    if styles != 0 {
      var styleOffsets;
      ok, styleOffsets := reader.ReadIntArray(styles);
      if !ok { return false, b; }
    }
    var size := (if stylesOffset == 0 then chunkSize else stylesOffset) - stringsOffset;
    if size % 4 != 0 || size < 0 { return false, b; }
    var strings;
    ok, strings := reader.ReadIntArray(size / 4);
    if !ok { return false, b; }
    if stylesOffset != 0 {
      var styleSize := chunkSize - stylesOffset;
      if styleSize % 4 != 0 || styleSize < 0 { return false, b; }
      var styleWords;
      ok, styleWords := reader.ReadIntArray(styleSize / 4);
      if !ok { return false, b; }
    }
    return true, Block(offsets, strings);
  }

  method ReadBlock(reader: IntReader) returns (ok: bool, b: Block)
    requires reader.Valid()
    modifies reader
    ensures ok <==> BlockAt(WordsOf(reader.stream), old(reader.At())).Some?
    ensures ok ==> reader.Valid() && BlockAt(WordsOf(reader.stream), old(reader.At())) == Some((b, reader.At()))
  {
    hide WordsOf, BlockBody;
    b := Block([], []);
    var kind, chunkSize, count, styles, flags, stringsOffset, stylesOffset;
    ok, kind := reader.ReadInt();
    if !ok || kind != POOL_TYPE { return false, b; }
    ok, chunkSize := reader.ReadInt();
    if !ok { return false, b; }
    ok, count := reader.ReadInt();
    if !ok { return false, b; }
    ok, styles := reader.ReadInt();
    if !ok { return false, b; }
    ok, flags := reader.ReadInt();
    if !ok { return false, b; }
    ok, stringsOffset := reader.ReadInt();
    if !ok { return false, b; }
    ok, stylesOffset := reader.ReadInt();
    if !ok || Signed(count) < 0 || Signed(styles) < 0 { return false, b; }
    ok, b := ReadArrays(reader, count, styles, Signed(chunkSize), Signed(stringsOffset), Signed(stylesOffset));
  }

  // ----- round trip -----

  lemma {:induction false} PackAt(hs: seq<Unit>, j: nat)
    requires |hs| % 2 == 0 && j < |hs|
    ensures GetShort(Pack(hs), 2 * j) == Some(hs[j])
  {
    var n := |hs| - 2;
    if j < n {
      PackAt(hs[..n], j);
      assert 2 * j / 4 < |Pack(hs[..n])|;
    } else if j == n {
      assert 2 * j / 4 == |hs| / 2 - 1 && 2 * j % 4 == 0;
    } else {
      assert 2 * j / 4 == |hs| / 2 - 1 && 2 * j % 4 == 2;
    }
  }

  /** An even byte offset past `low` reads from what follows it. */
  lemma {:induction false} GetShortPast(low: seq<Word>, high: seq<Word>, o: nat)
    ensures GetShort(low + high, 4 * |low| + o) == GetShort(high, o)
  {
    assert (4 * |low| + o) / 4 == |low| + o / 4 && (4 * |low| + o) % 4 == o % 4;
  }

  lemma {:induction false} GetShortWithin(low: seq<Word>, high: seq<Word>, o: nat)
    requires GetShort(low, o).Some?
    ensures GetShort(low + high, o) == GetShort(low, o)
  {
  }

  /** String i of the pool sits at its offset. */
  lemma {:induction false} PackedAt(strs: seq<Str>, i: nat, j: nat)
    requires i < |strs| && j < |Shorts(strs[i])|
    ensures GetShort(PackAll(strs), RawSizes(strs[..i]) + 2 * j) == Some(Shorts(strs[i])[j])
  {
    hide Shorts, GetShort, RawSize;
    var n := |strs| - 1;
    var low, hs := PackAll(strs[..n]), Shorts(strs[n]);
    if i < n {
      assert strs[..n][..i] == strs[..i];
      PackedAt(strs[..n], i, j);
      GetShortWithin(low, Pack(hs), RawSizes(strs[..i]) + 2 * j);
    } else {
      PackAt(hs, j);
      GetShortPast(low, Pack(hs), 2 * j);
    }
  }

  lemma {:induction false} UnitsOf(strs: seq<Str>, i: nat, n: nat)
    requires i < |strs| && n <= |strs[i]|
    ensures Units(PackAll(strs), RawSizes(strs[..i]), n) == Some(strs[i][..n])
  {
    hide PackAll, RawSizes, GetShort;
    if n > 0 {
      UnitsOf(strs, i, n - 1);
      PackedAt(strs, i, n);
      assert Shorts(strs[i])[n] == strs[i][n - 1];
      assert strs[i][..n - 1] + [strs[i][n - 1]] == strs[i][..n];
    }
  }

  function BlockOf(strs: seq<Str>): Block
    requires PoolSize(strs) <= MAX_INT
  {
    Block(Offsets(strs), PackAll(strs))
  }

  /** Reading a string back gives its first (length mod 65536) units, so the string itself
      exactly when it has at most 65535 of them. */
  lemma {:induction false} StringReadsBack(strs: seq<Str>, i: nat)
    requires PoolSize(strs) <= MAX_INT && i < |strs|
    ensures StringAt(BlockOf(strs), i) == Got(strs[i][..|strs[i]| % 0x1_0000])
    ensures StringAt(BlockOf(strs), i) == Got(strs[i]) <==> |strs[i]| <= 0xFFFF
  {
    hide PackAll, Units, GetShort, RawSizes;
    PackedAt(strs, i, 0);
    UnitsOf(strs, i, |strs[i]| % 0x1_0000);
    assert Shorts(strs[i])[0] == |strs[i]| % 0x1_0000;
    if |strs[i]| > 0xFFFF {
      assert |strs[i][..|strs[i]| % 0x1_0000]| < |strs[i]|;
    }
  }

  lemma {:induction false} Slices(a: seq<Word>, h: seq<Word>, o: seq<Word>, p: seq<Word>, c: seq<Word>)
    ensures var ws := a + (h + o + p) + c;
      && ws[|a|..|a| + |h|] == h
      && ws[|a| + |h|..|a| + |h| + |o|] == o
      && ws[|a| + |h| + |o|..|a| + |h| + |o| + |p|] == p
  {
  }

  function PoolHeader(strs: seq<Str>): seq<Word>
    requires PoolSize(strs) <= MAX_INT
  {
    [POOL_TYPE, PoolSize(strs), |strs|, 0, 0, |strs| * 4 + POOL_HEADER, 0]
  }

  /** The decoder takes the pool apart where the encoder put it. */
  lemma {:induction false} PoolReadsBack(strs: seq<Str>, before: seq<Word>, after: seq<Word>)
    requires PoolSize(strs) <= MAX_INT
    ensures BlockAt(before + PoolWords(strs) + after, |before|)
         == Some((BlockOf(strs), |before| + |PoolWords(strs)|))
  {
    hide Offsets, PackAll, RawSizes;
    var ws, p := before + PoolWords(strs) + after, |before|;
    var h := PoolHeader(strs);
    Slices(before, h, Offsets(strs), PackAll(strs), after);
    assert ws == before + (h + Offsets(strs) + PackAll(strs)) + after;
    assert forall k :: 0 <= k < 7 ==> ws[p..p + 7][k] == h[k];
    assert ws[p] == h[0] && ws[p + 1] == h[1] && ws[p + 2] == h[2] && ws[p + 3] == h[3] && ws[p + 5] == h[5] && ws[p + 6] == h[6];
  }
}
