/** NamespaceStack of the binary XML parser: a stack of frames of (prefix, uri) pairs packed
    into one int array, each frame as its count, its pairs, and its count again. */
module NamespaceStacks {

  type Pair = (int, int)
  type Frame = seq<Pair>

  // ----- the packing -----

  /** The cells of the pairs: prefix, uri, prefix, uri, and so on. */
  function Cells(f: Frame): (r: seq<int>)
    ensures |r| == 2 * |f|
  {
    if f == [] then [] else Cells(f[..|f| - 1]) + [f[|f| - 1].0, f[|f| - 1].1]
  }

  function Packed(f: Frame): seq<int> { [|f|] + Cells(f) + [|f|] }

  /** Data = DepthFrame*. */
  function Data(fs: seq<Frame>): (r: seq<int>)
    ensures |r| % 2 == 0
  {
    if fs == [] then [] else Data(fs[..|fs| - 1]) + Packed(fs[|fs| - 1])
  }

  /** All pairs, oldest first. */
  function Pairs(fs: seq<Frame>): seq<Pair> {
    if fs == [] then [] else Pairs(fs[..|fs| - 1]) + fs[|fs| - 1]
  }

  lemma {:induction false} CellsAt(f: Frame, i: nat)
    requires i < |f|
    ensures Cells(f)[2 * i] == f[i].0 && Cells(f)[2 * i + 1] == f[i].1
  {
    if i < |f| - 1 {
      CellsAt(f[..|f| - 1], i);
    }
  }

  lemma {:induction false} CellsConcat(a: Frame, b: Frame)
    ensures Cells(a + b) == Cells(a) + Cells(b)
  {
    if b == [] {
      assert a + b == a;
    } else {
      CellsConcat(a, b[..|b| - 1]);
      assert (a + b)[..|a + b| - 1] == a + b[..|b| - 1];
    }
  }

  /** The frames below k occupy a prefix of the data, and frame k follows it. */
  lemma {:induction false} DataAt(fs: seq<Frame>, k: nat)
    requires k < |fs|
    ensures |Data(fs[..k])| + 2 + 2 * |fs[k]| == |Data(fs[..k + 1])| <= |Data(fs)|
    ensures Data(fs)[|Data(fs[..k])|..|Data(fs[..k + 1])|] == Packed(fs[k])
  {
    assert fs[..k + 1][..k] == fs[..k];
    if k == |fs| - 1 {
      assert fs[..k + 1] == fs;
    } else {
      var below := fs[..|fs| - 1];
      DataAt(below, k);
      assert below[..k] == fs[..k] && below[..k + 1] == fs[..k + 1];
    }
  }

  /** Where the two counts of frame k sit. */
  lemma {:induction false} FrameCounts(fs: seq<Frame>, k: nat)
    requires k < |fs|
    ensures |Data(fs[..k])| + 2 + 2 * |fs[k]| == |Data(fs[..k + 1])| <= |Data(fs)|
    ensures Data(fs)[|Data(fs[..k])|] == |fs[k]| == Data(fs)[|Data(fs[..k + 1])| - 1]
  {
    DataAt(fs, k);
    var q := Data(fs)[|Data(fs[..k])|..|Data(fs[..k + 1])|];
    assert q[0] == |fs[k]| == q[|q| - 1];
  }

  /** Where pair i of frame k sits. */
  lemma {:induction false} FramePair(fs: seq<Frame>, k: nat, i: nat)
    requires k < |fs| && i < |fs[k]|
    ensures |Data(fs[..k])| + 2 + 2 * |fs[k]| <= |Data(fs)|
    ensures Data(fs)[|Data(fs[..k])| + 1 + 2 * i] == fs[k][i].0
    ensures Data(fs)[|Data(fs[..k])| + 2 + 2 * i] == fs[k][i].1
  {
    DataAt(fs, k);
    CellsAt(fs[k], i);
    var o := |Data(fs[..k])|;
    var q := Data(fs)[o..|Data(fs[..k + 1])|];
    assert q[1 + 2 * i] == fs[k][i].0 && q[2 + 2 * i] == fs[k][i].1;
    assert Data(fs)[o + (1 + 2 * i)] == q[1 + 2 * i] && Data(fs)[o + (2 + 2 * i)] == q[2 + 2 * i];
  }

  lemma {:induction false} TopCounts(fs: seq<Frame>)
    ensures Data(fs) == [] <==> fs == []
    ensures Data(fs[..0]) == [] && Pairs(fs[..0]) == [] && fs[..|fs|] == fs
    ensures |Pairs(fs)| == |Pairs(Below(fs))| + |Top(fs)|
    ensures |fs| > 1 <==> |Data(Below(fs))| > 0
    ensures fs != [] ==> |Data(fs)| == |Data(Below(fs))| + 2 + 2 * |Top(fs)|
    ensures fs != [] ==> Data(fs)[|Data(Below(fs))|] == |Top(fs)| == Data(fs)[|Data(fs)| - 1]
  {
    if fs != [] {
      FrameCounts(fs, |fs| - 1);
      assert fs[..|fs| - 1 + 1] == fs;
    }
  }

  lemma {:induction false} DataBelow(fs: seq<Frame>)
    ensures Data(Below(fs)) <= Data(fs)
  {
  }

  lemma {:induction false} TopPair(fs: seq<Frame>, i: nat)
    requires i < |Top(fs)|
    ensures |Data(Below(fs))| + 2 + 2 * |Top(fs)| <= |Data(fs)|
    ensures Data(fs)[|Data(Below(fs))| + 1 + 2 * i] == Top(fs)[i].0
    ensures Data(fs)[|Data(Below(fs))| + 2 + 2 * i] == Top(fs)[i].1
  {
    hide Data;
    FramePair(fs, |fs| - 1, i);
  }

  lemma {:induction false} PairsAt(fs: seq<Frame>, k: nat)
    requires k < |fs|
    ensures Pairs(fs[..k + 1]) == Pairs(fs[..k]) + fs[k]
    ensures Pairs(fs[..k + 1]) <= Pairs(fs)
  {
    assert fs[..k + 1][..k] == fs[..k];
    if k == |fs| - 1 {
      assert fs[..k + 1] == fs;
    } else {
      var below := fs[..|fs| - 1];
      PairsAt(below, k);
      assert below[..k + 1] == fs[..k + 1];
    }
  }

  // ----- the operations on frames -----

  function Top(fs: seq<Frame>): Frame { if fs == [] then [] else fs[|fs| - 1] }
  function Below(fs: seq<Frame>): seq<Frame> { if fs == [] then [] else fs[..|fs| - 1] }

  function Pushed(fs: seq<Frame>, p: Pair): seq<Frame> { Below(fs) + [Top(fs) + [p]] }
  function Popped(fs: seq<Frame>): seq<Frame> {
    if Top(fs) == [] then fs else Below(fs) + [Top(fs)[..|Top(fs)| - 1]]
  }

  /** The last position of p in f, or -1. */
  function LastOf(f: Frame, p: Pair): (r: int)
    ensures -1 <= r < |f|
    ensures r >= 0 ==> f[r] == p
    ensures forall i :: r < i < |f| ==> f[i] != p
  {
    if f == [] then -1 else if f[|f| - 1] == p then |f| - 1 else LastOf(f[..|f| - 1], p)
  }

  function PoppedPair(fs: seq<Frame>, p: Pair): seq<Frame> {
    var f := Top(fs);
    var i := LastOf(f, p);
    if i < 0 then fs else Below(fs) + [f[..i] + f[i + 1..]]
  }

  function Deepened(fs: seq<Frame>): seq<Frame> { fs + [[]] }
  function Shallowed(fs: seq<Frame>): seq<Frame> { if |fs| <= 1 then fs else Below(fs) }

  /** Opening a frame, declaring any pairs in it and closing it again changes nothing, provided
      there was a frame: the bottom frame is never closed. */
  lemma {:induction false} ScopeRestores(fs: seq<Frame>, ps: seq<Pair>)
    ensures Shallowed(PushedAll(Deepened(fs), ps)) == fs <==> fs != []
  {
    PushedAllIs(Deepened(fs), ps);
    assert Below(Deepened(fs)) == fs;
    var inner := PushedAll(Deepened(fs), ps);
    assert inner == fs + [ps] by {
      assert Top(Deepened(fs)) == [];
      assert [] + ps == ps;
    }
    if fs != [] {
      assert Below(inner) == fs;
    }
  }

  function PushedAll(fs: seq<Frame>, ps: seq<Pair>): seq<Frame>
    decreases |ps|
  {
    if ps == [] then fs else Pushed(PushedAll(fs, ps[..|ps| - 1]), ps[|ps| - 1])
  }

  lemma {:induction false} PushedAllIs(fs: seq<Frame>, ps: seq<Pair>)
    requires fs != []
    ensures PushedAll(fs, ps) == Below(fs) + [Top(fs) + ps]
    decreases |ps|
  {
    if ps == [] {
      assert Top(fs) + ps == Top(fs);
      assert Below(fs) + [Top(fs)] == fs;
    } else {
      PushedAllIs(fs, ps[..|ps| - 1]);
      var before := PushedAll(fs, ps[..|ps| - 1]);
      assert Below(before) == Below(fs) && Top(before) == Top(fs) + ps[..|ps| - 1];
      assert Top(fs) + ps[..|ps| - 1] + [ps[|ps| - 1]] == Top(fs) + ps;
    }
  }

  /** pop undoes push, and so does pop of the pair just pushed; on an empty stack both leave the
      frame that push inner. */
  lemma PopUndoesPush(fs: seq<Frame>, p: Pair)
    ensures Popped(Pushed(fs, p)) == PoppedPair(Pushed(fs, p), p) == if fs == [] then [[]] else fs
  {
    var after := Pushed(fs, p);
    assert Top(after) == Top(fs) + [p] && Below(after) == Below(fs);
    assert Top(after)[..|Top(after)| - 1] == Top(fs);
    assert LastOf(Top(after), p) == |Top(fs)|;
    assert Top(after)[..|Top(fs)|] + Top(after)[|Top(fs)| + 1..] == Top(fs);
    if fs != [] {
      assert Below(fs) + [Top(fs)] == fs;
    }
  }

  /** System.arraycopy within one array: all reads come before the writes. */
  method ArrayCopy(src: array<int>, srcPos: nat, dst: array<int>, dstPos: nat, length: nat)
    requires srcPos + length <= src.Length && dstPos + length <= dst.Length
    modifies dst
    ensures forall j :: dstPos <= j < dstPos + length ==> dst[j] == old(src[srcPos + (j - dstPos)])
    ensures forall j :: 0 <= j < dst.Length && !(dstPos <= j < dstPos + length) ==> dst[j] == old(dst[j])
    ensures dst[dstPos..dstPos + length] == old(src[srcPos..srcPos + length])
    ensures dst[..dstPos] == old(dst[..dstPos])
  {
    forall j | dstPos <= j < dstPos + length {
      dst[j] := src[srcPos + (j - dstPos)];
    }
  }

  /** The last pair of a frame: its first cell takes the closing count. */
  lemma {:induction false} LastCellsGone(m: seq<int>, n: nat, offset: nat)
    requires 3 + n * 2 <= offset && offset + 2 < |m|
    ensures m[offset - 2 := n][offset - 3 - 2 * n := n][..offset - 1]
      == (m[..offset - 2] + m[offset..offset + 1])[offset - 3 - 2 * n := n][offset - 2 := n]
  {
  }

  /** Another pair: the cells behind it move down over it. */
  lemma {:induction false} InnerCellsGone(m: seq<int>, n: nat, o: nat, offset: nat)
    requires offset - 2 - 2 * n <= o <= offset - 2 && 3 + n * 2 <= offset && offset + 2 < |m|
    ensures var m' := m[offset := n][offset - 3 - 2 * n := n];
      m'[..o] + m'[o + 2..offset + 1] == (m[..o] + m[o + 2..offset + 1])[offset - 3 - 2 * n := n][offset - 2 := n]
  {
  }

  lemma {:induction false} MovedDown(m: seq<int>, d: seq<int>, o: nat, length: nat)
    requires length >= 2 && o + 2 + length <= |m| == |d|
    requires d[..o] == m[..o] && d[o..o + length] == m[o + 2..o + 2 + length]
    ensures d[..o + length - 2] == m[..o] + m[o + 2..o + length]
  {
    var e := o + length;
    Shortened(d, o, e - 2, e);
    Shortened(m, o + 2, e, e + 2);
    assert d[..e - 2] == d[..o] + d[o..e - 2];
  }

  lemma {:induction false} Shortened(s: seq<int>, a: nat, b: nat, c: nat)
    requires a <= b <= c <= |s|
    ensures s[a..c][..b - a] == s[a..b]
  {
  }

  class NamespaceStack {
    var data: array<int>
    var dataLength: nat
    var count: nat
    var depth: nat
    ghost var frames: seq<Frame>

    /** Length and capacity are even and the capacity always leaves two cells free, which is what
        keeps the copy in PopPair inside the array. */
    ghost predicate Valid()
      reads this, data
    {
      && data.Length % 2 == 0 && data.Length >= 32
      && dataLength + 2 <= data.Length
      && data[..dataLength] == Data(frames)
      && depth == |frames|
      && count == |Pairs(frames)|
    }

    constructor ()
      ensures Valid() && fresh(data) && frames == []
    {
      data := new int[32];
      dataLength, count, depth, frames := 0, 0, 0, [];
    }

    method Reset()
      requires Valid()
      modifies this
      ensures Valid() && data == old(data) && frames == []
    {
      dataLength, count, depth, frames := 0, 0, 0, [];
    }

    method GetCurrentCount() returns (r: int)
      requires Valid()
      ensures r == |Top(frames)|
    {
      hide Data, Cells, Pairs, Packed;
      TopCounts(frames);
      if dataLength == 0 {
        return 0;
      }
      var offset := dataLength - 1;
      assert data[offset] == data[..dataLength][offset];
      return data[offset];
    }

    method GetAccumulatedCount(depth: int) returns (r: int)
      requires Valid()
      ensures r == |Pairs(frames[..if depth < 0 then 0 else if depth > |frames| then |frames| else depth])|
    {
      hide Data, Cells, Pairs, Packed;
      TopCounts(frames);
      if dataLength == 0 || depth < 0 {
        return 0;
      }
      var left := depth;
      if left > this.depth {
        left := this.depth;
      }
      ghost var goal := left;
      var accumulated, offset := 0, 0;
      while left != 0
        invariant 0 <= left <= goal <= |frames|
        invariant offset == |Data(frames[..goal - left])|
        invariant accumulated == |Pairs(frames[..goal - left])|
        decreases left
      {
        ghost var k := goal - left;
        FrameCounts(frames, k);
        PairsAt(frames, k);
        var n := data[offset];
        assert n == data[..dataLength][offset];
        accumulated := accumulated + n;
        offset := offset + (2 + n * 2);
        left := left - 1;
      }
      return accumulated;
    }

    /** More than `capacity` cells are free afterwards; the cells in use stay. */
    method EnsureDataCapacity(capacity: nat)
      requires capacity == 2 && data.Length % 2 == 0 && data.Length >= 32 && dataLength + 2 <= data.Length
      modifies `data
      ensures data.Length % 2 == 0 && data.Length >= 32 && dataLength + capacity < data.Length
      ensures data == old(data) || fresh(data)
      ensures data[..dataLength] == old(data[..dataLength])
    {
      var available := data.Length - dataLength;
      if available > capacity {
        return;
      }
      var newLength := (data.Length + available) * 2;
      var newData := new int[newLength];
      ArrayCopy(data, 0, newData, 0, dataLength);
      assert forall k :: 0 <= k < dataLength ==> newData[k] == old(data[k]);
      data := newData;
    }

    method IncreaseDepth()
      requires Valid()
      modifies this, data
      ensures Valid() && (data == old(data) || fresh(data))
      ensures frames == Deepened(old(frames))
    {
      EnsureDataCapacity(2);
      var offset := dataLength;
      data[offset] := 0;
      data[offset + 1] := 0;
      dataLength := dataLength + 2;
      depth := depth + 1;
      frames := Deepened(frames);
      assert frames[..|frames| - 1] == old(frames);
      assert Packed([]) == [0, 0];
      assert data[..dataLength] == data[..offset] + [0, 0];
    }

    method DecreaseDepth()
      requires Valid()
      modifies this
      ensures Valid() && data == old(data)
      ensures frames == Shallowed(old(frames))
    {
      hide Data, Cells, Pairs, Packed;
      TopCounts(frames);
      if dataLength == 0 {
        return;
      }
      var offset := dataLength - 1;
      var n := data[offset];
      assert n == data[..dataLength][offset];
      if offset - 1 - n * 2 == 0 {
        return;
      }
      dataLength := dataLength - (2 + n * 2);
      count := count - n;
      depth := depth - 1;
      DataBelow(frames);
      frames := Below(frames);
    }

    method StorePair(offset: nat, n: nat, prefix: int, uri: int)
      requires 1 + n * 2 <= offset && offset + 2 < data.Length
      modifies data
      ensures data[..] == old(data[..])[offset - 1 - n * 2 := n + 1][offset := prefix][offset + 1 := uri][offset + 2 := n + 1]
    {
      data[offset - 1 - n * 2] := n + 1;
      data[offset] := prefix;
      data[offset + 1] := uri;
      data[offset + 2] := n + 1;
    }

    /** push once there is a frame and room for two more cells. */
    method PushIntoTop(prefix: int, uri: int)
      requires Valid() && frames != [] && dataLength + 2 < data.Length
      modifies this, data
      ensures Valid() && data == old(data)
      ensures frames == Pushed(old(frames), (prefix, uri))
    {
      hide Data, Cells, Pairs, Packed, Pushed, Below;
      ghost var fs, a := frames, data[..];
      assert a[..dataLength] == Data(fs);
      TopCounts(fs);
      var offset := dataLength - 1;
      var n := data[offset];
      assert n == data[..dataLength][offset];
      PairAdded(fs, a, offset, (prefix, uri));
      StorePair(offset, n, prefix, uri);
      dataLength := dataLength + 2;
      count := count + 1;
      frames := Pushed(fs, (prefix, uri));
      assert data[..dataLength] == data[..][..dataLength];
    }

    method Push(prefix: int, uri: int)
      requires Valid()
      modifies this, data
      ensures Valid() && (data == old(data) || fresh(data))
      ensures frames == Pushed(old(frames), (prefix, uri))
    {
      hide Data, Pairs, Pushed;
      PushedOnEmpty((prefix, uri));
      if depth == 0 {
        IncreaseDepth();
      }
      EnsureDataCapacity(2);
      PushIntoTop(prefix, uri);
    }

    method PopTop() returns (r: bool)
      requires Valid()
      modifies this, data
      ensures Valid() && data == old(data)
      ensures frames == Popped(old(frames))
      ensures r <==> Top(old(frames)) != []
    {
      hide Data, Pairs;
      TopCounts(frames);
      if dataLength == 0 {
        return false;
      }
      var offset := dataLength - 1;
      var n := data[offset];
      assert n == data[..dataLength][offset];
      if n == 0 {
        return false;
      }
      ghost var m := data[..];
      assert m[..dataLength] == data[..dataLength];
      PoppedTop(frames, m);
      hide Popped, Top, Below;
      n := n - 1;
      offset := offset - 2;
      data[offset] := n;
      offset := offset - (1 + n * 2);
      data[offset] := n;
      assert data[..] == m[dataLength - 3 := n][offset := n];
      dataLength := dataLength - 2;
      count := count - 1;
      assert data[..dataLength] == data[..][..dataLength];
      frames := Popped(frames);
      return true;
    }

    /** The two branches of pop(prefix, uri) once pair i from the top is found at cell o; n is the
        count that is left and offset the cell of the closing count. */
    method RemoveCells(i: nat, n: nat, o: nat, offset: nat)
      requires i <= n && 3 + n * 2 <= offset && o == offset - 2 - 2 * i && offset + 2 < data.Length
      modifies data
      ensures data[..offset - 1]
           == (old(data[..o]) + old(data[o + 2..offset + 1]))[offset - 3 - 2 * n := n][offset - 2 := n]
    {
      ghost var m := data[..];
      if i == 0 {
        data[o] := n;
        data[o - (1 + n * 2)] := n;
        assert data[..] == m[o := n][offset - 3 - 2 * n := n];
        LastCellsGone(m, n, offset);
      } else {
        data[offset] := n;
        data[offset - (1 + 2 + n * 2)] := n;
        assert data[..] == m[offset := n][offset - 3 - 2 * n := n];
        InnerCellsGone(m, n, o, offset);
        MoveDown(o, offset + 1 - o);
      }
    }

    /** The copy of length cells two places down. */
    method MoveDown(o: nat, length: nat)
      requires 2 <= length && o + 2 + length <= data.Length
      modifies data
      ensures data[..o + length - 2] == old(data[..o]) + old(data[o + 2..o + length])
    {
      ghost var m := data[..];
      ArrayCopy(data, o + 2, data, o, length);
      assert data[..][..o] == data[..o] && data[..][o..o + length] == data[o..o + length];
      MovedDown(m, data[..], o, length);
    }

    /** Pair k of the top frame, the last one equal to p, goes. */
    method RemovePair(i: nat, n: nat, o: nat, offset: nat, ghost p: Pair, ghost k: nat)
      requires Valid() && n == |Top(frames)| - 1 && k == n - i && Top(frames)[k] == p
      requires forall j :: k < j <= n ==> Top(frames)[j] != p
      requires offset == dataLength - 1 && o == |Data(Below(frames))| + 1 + 2 * k
      modifies this, data
      ensures Valid() && data == old(data)
      ensures frames == PoppedPair(old(frames), p)
    {
      hide Data, Cells, Pairs, Packed, PoppedPair, Below;
      TopCounts(frames);
      ghost var d := data[..dataLength];
      PairGone(frames, d, p, k, o, n);
      assert d[..o] == data[..o] && d[o + 2..] == data[o + 2..offset + 1];
      RemoveCells(i, n, o, offset);
      dataLength := dataLength - 2;
      count := count - 1;
      frames := PoppedPair(frames, p);
    }

    method PopPair(prefix: int, uri: int) returns (r: bool)
      requires Valid()
      modifies this, data
      ensures Valid() && data == old(data)
      ensures frames == PoppedPair(old(frames), (prefix, uri))
      ensures r <==> (prefix, uri) in Top(old(frames))
    {
      hide Data, Cells, Pairs, Packed, PoppedPair;
      TopCounts(frames);
      if dataLength == 0 {
        PoppedPairIs(frames, (prefix, uri), -1);
        return false;
      }
      var offset := dataLength - 1;
      var n := data[offset];
      assert n == data[..dataLength][offset];
      ghost var f, start, d := Top(frames), |Data(Below(frames))|, data[..dataLength];
      var i, o := 0, offset - 2;
      while i != n
        invariant unchanged(this) && unchanged(data)
        invariant 0 <= i <= n == |f|
        invariant o == start + 1 + 2 * (n - 1 - i)
        invariant forall j :: n - i <= j < n ==> f[j] != (prefix, uri)
        decreases n - i
      {
        ghost var k := n - 1 - i;
        TopPair(frames, k);
        assert data[o] == d[o] && data[o + 1] == d[o + 1];
        if data[o] != prefix || data[o + 1] != uri {
          i, o := i + 1, o - 2;
          continue;
        }
        RemovePair(i, n - 1, o, offset, (prefix, uri), k);
        return true;
      }
      PoppedPairIs(frames, (prefix, uri), -1);
      return false;
    }

    /** The uri bound to a prefix (or the prefix bound to a uri) by the innermost pair, or -1. */
    method Find(prefixOrUri: int, prefix: bool) returns (r: int)
      requires Valid()
      ensures r == Lookup(Pairs(frames), prefixOrUri, prefix)
    {
      hide Data, Cells, Pairs, Packed, Lookup;
      TopCounts(frames);
      if dataLength == 0 {
        EmptyStack(frames, prefixOrUri, prefix);
        return -1;
      }
      var offset := dataLength - 1;
      var i := depth;
      ghost var d, goal := data[..dataLength], Lookup(Pairs(frames), prefixOrUri, prefix);
      assert frames[..i] == frames && d == Data(frames);
      while i != 0
        invariant 0 <= i <= |frames|
        invariant offset == |Data(frames[..i])| - 1
        invariant goal == Lookup(Pairs(frames[..i]), prefixOrUri, prefix)
        decreases i
      {
        FrameCounts(frames, i - 1);
        PairsAt(frames, i - 1);
        assert frames[i - 1][..|frames[i - 1]|] == frames[i - 1];
        ghost var f, start, low := frames[i - 1], |Data(frames[..i - 1])|, Pairs(frames[..i - 1]);
        var n := data[offset];
        assert n == d[offset];
        offset := offset - 2;
        while n != 0
          invariant 0 <= n <= |f|
          invariant offset == start - 1 + 2 * n
          invariant goal == Lookup(low + f[..n], prefixOrUri, prefix)
          decreases n
        {
          FramePair(frames, i - 1, n - 1);
          assert d[offset] == data[offset] && d[offset + 1] == data[offset + 1];
          LookupNext(low, f, n, prefixOrUri, prefix);
          if prefix {
            if data[offset] == prefixOrUri {
              return data[offset + 1];
            }
          } else {
            if data[offset + 1] == prefixOrUri {
              return data[offset];
            }
          }
          offset := offset - 2;
          n := n - 1;
        }
        assert low + f[..0] == low;
        i := i - 1;
      }
      EmptyStack(frames[..0], prefixOrUri, prefix);
      return -1;
    }

    /** The prefix or the uri of the pair at an index counted from the oldest, or -1. */
    method Get(index: int, prefix: bool) returns (r: int)
      requires Valid()
      ensures r == if 0 <= index < |Pairs(frames)| then Side(Pairs(frames)[index], prefix) else -1
    {
      hide Data, Cells, Pairs, Packed;
      TopCounts(frames);
      if dataLength == 0 || index < 0 {
        return -1;
      }
      var left := index;
      var offset := 0;
      var i := depth;
      while i != 0
        invariant 0 <= i <= |frames|
        invariant offset == |Data(frames[..|frames| - i])|
        invariant 0 <= left == index - |Pairs(frames[..|frames| - i])|
        decreases i
      {
        ghost var k := |frames| - i;
        FrameCounts(frames, k);
        PairsAt(frames, k);
        var n := data[offset];
        assert n == data[..dataLength][offset];
        if left >= n {
          left := left - n;
          offset := offset + (2 + n * 2);
          i := i - 1;
          continue;
        }
        FramePair(frames, k, left);
        assert Pairs(frames)[index] == frames[k][left];
        offset := offset + (1 + left * 2);
        if !prefix {
          offset := offset + 1;
        }
        assert data[offset] == data[..dataLength][offset];
        return data[offset];
      }
      return -1;
    }
  }

  function Side(p: Pair, prefix: bool): int { if prefix then p.0 else p.1 }

  /** What the last pair with this side equal to x has on its other side, or -1. */
  function Lookup(ps: seq<Pair>, x: int, prefix: bool): (r: int)
    ensures (exists i :: 0 <= i < |ps| && Side(ps[i], prefix) == x && r == Side(ps[i], !prefix)
               && forall j :: i < j < |ps| ==> Side(ps[j], prefix) != x)
      || (r == -1 && forall i :: 0 <= i < |ps| ==> Side(ps[i], prefix) != x)
  {
    if ps == [] then -1
    else if Side(ps[|ps| - 1], prefix) == x then Side(ps[|ps| - 1], !prefix)
    else Lookup(ps[..|ps| - 1], x, prefix)
  }

  lemma {:induction false} LookupNext(low: seq<Pair>, f: Frame, n: nat, x: int, prefix: bool)
    requires 0 < n <= |f|
    ensures Lookup(low + f[..n], x, prefix) == if Side(f[n - 1], prefix) == x then Side(f[n - 1], !prefix)
                                               else Lookup(low + f[..n - 1], x, prefix)
  {
    var all := low + f[..n];
    assert all[..|all| - 1] == low + f[..n - 1];
  }

  lemma EmptyStack(fs: seq<Frame>, x: int, prefix: bool)
    requires fs == []
    ensures Data(fs) == [] && Pairs(fs) == [] && Lookup(Pairs(fs), x, prefix) == -1
  {
  }

  lemma {:induction false} PairStored(a: seq<int>, offset: nat, start: nat, n: nat, p: int, u: int)
    requires start < offset && offset + 2 < |a|
    ensures a[start := n + 1][offset := p][offset + 1 := u][offset + 2 := n + 1][..offset + 3]
         == (a[..offset + 1] + [u, n + 1])[start := n + 1][offset := p]
  {
  }

  lemma {:induction false} CellsWithout(f: Frame, k: nat)
    requires k < |f|
    ensures Cells(f[..k] + f[k + 1..]) == Cells(f)[..2 * k] + Cells(f)[2 * k + 2..]
  {
    assert f == f[..k] + ([f[k]] + f[k + 1..]);
    CellsConcat(f[..k], [f[k]] + f[k + 1..]);
    CellsConcat([f[k]], f[k + 1..]);
    CellsConcat(f[..k], f[k + 1..]);
    assert |Cells(f[..k])| == 2 * k && |Cells([f[k]])| == 2;
  }

  lemma {:induction false} PoppedPairIs(fs: seq<Frame>, p: Pair, k: int)
    requires var f := Top(fs);
      -1 <= k < |f| && (k >= 0 ==> f[k] == p) && forall j :: k < j < |f| ==> f[j] != p
    ensures PoppedPair(fs, p) == if k < 0 then fs else Below(fs) + [Top(fs)[..k] + Top(fs)[k + 1..]]
    ensures |PoppedPair(fs, p)| == |fs|
  {
    assert LastOf(Top(fs), p) == k;
  }

  lemma PushedOnEmpty(p: Pair)
    ensures Pushed(Deepened([]), p) == Pushed([], p)
  {
    assert Deepened([]) == [[]];
    assert Below([[]]) == [];
  }

  lemma {:induction false} PushedCells(fs: seq<Frame>, d: seq<int>, p: Pair)
    requires fs != [] && d == Data(fs)
    ensures var n, o := |Top(fs)|, |Data(Below(fs))|;
      o < |d| && Data(Pushed(fs, p)) == (d + [p.1, n + 1])[o := n + 1][|d| - 1 := p.0]
    ensures |Pushed(fs, p)| == |fs| && |Pairs(Pushed(fs, p))| == |Pairs(fs)| + 1
  {
    var f, low, g := Top(fs), Data(Below(fs)), Top(fs) + [p];
    var fs' := Pushed(fs, p);
    assert fs'[..|fs'| - 1] == Below(fs);
    assert g[..|g| - 1] == f;
    assert d == low + ([|f|] + Cells(f) + [|f|]);
    assert Data(fs') == low + ([|f| + 1] + (Cells(f) + [p.0, p.1]) + [|f| + 1]);
  }

  /** Both pops: pair k of the top frame is gone and the later pairs have moved down. */
  lemma {:induction false} PoppedCells(fs: seq<Frame>, d: seq<int>, k: nat)
    requires fs != [] && k < |Top(fs)| && d == Data(fs)
    ensures var f, o := Top(fs), |Data(Below(fs))|;
      var fs' := Below(fs) + [f[..k] + f[k + 1..]];
      && |d| == o + 2 + 2 * |f| && |fs'| == |fs| && |Pairs(fs')| == |Pairs(fs)| - 1
      && Data(fs') == (d[..o + 1 + 2 * k] + d[o + 3 + 2 * k..])[o := |f| - 1][|d| - 3 := |f| - 1]
  {
    hide Data, Cells, Pairs;
    var f, low := Top(fs), Data(Below(fs));
    var g := f[..k] + f[k + 1..];
    var fs' := Below(fs) + [g];
    assert Below(fs') == Below(fs) && Top(fs') == g;
    TopCounts(fs);
    TopCounts(fs');
    TopIs(fs);
    TopIs(fs');
    CellsWithout(f, k);
    Cut(low, |f|, Cells(f), k, |f| - 1);
  }

  /** The writes that take the last pair of the top frame out of the array m. */
  lemma {:induction false} PoppedTop(fs: seq<Frame>, m: seq<int>)
    requires Top(fs) != [] && |Data(fs)| + 2 <= |m| && m[..|Data(fs)|] == Data(fs)
    ensures var n, l := |Top(fs)| - 1, |Data(fs)|;
      && l >= 4 + 2 * n && |Popped(fs)| == |fs| && |Pairs(Popped(fs))| == |Pairs(fs)| - 1
      && m[l - 3 := n][l - 4 - 2 * n := n][..l - 2] == Data(Popped(fs))
  {
    hide Data, Pairs;
    var f, n, l := Top(fs), |Top(fs)| - 1, |Data(fs)|;
    PoppedCells(fs, Data(fs), n);
    assert f[..n] + f[n + 1..] == f[..n];
    LastCellsGone(m, n, l - 1);
    assert m[..l - 3] == Data(fs)[..l - 3] && m[l - 1..l] == Data(fs)[l - 1..];
  }

  lemma {:induction false} PairAdded(fs: seq<Frame>, a: seq<int>, offset: nat, p: Pair)
    requires fs != [] && offset + 2 < |a| && a[..offset + 1] == Data(fs)
    ensures var n := |Top(fs)|;
      && 1 + n * 2 <= offset
      && a[offset - 1 - n * 2 := n + 1][offset := p.0][offset + 1 := p.1][offset + 2 := n + 1][..offset + 3]
         == Data(Pushed(fs, p))
    ensures |Pushed(fs, p)| == |fs| && |Pairs(Pushed(fs, p))| == |Pairs(fs)| + 1
  {
    hide Data, Cells, Pairs, Pushed;
    TopCounts(fs);
    PushedCells(fs, a[..offset + 1], p);
    PairStored(a, offset, |Data(Below(fs))|, |Top(fs)|, p.0, p.1);
  }

  lemma {:induction false} PairGone(fs: seq<Frame>, d: seq<int>, p: Pair, k: nat, o: nat, n: nat)
    requires fs != [] && d == Data(fs) && k < |Top(fs)| && Top(fs)[k] == p && n == |Top(fs)| - 1
    requires forall j :: k < j < |Top(fs)| ==> Top(fs)[j] != p
    requires o == |Data(Below(fs))| + 1 + 2 * k
    ensures |d| >= 4 + 2 * n && o + 2 <= |d|
    ensures Data(PoppedPair(fs, p)) == (d[..o] + d[o + 2..])[|d| - 4 - 2 * n := n][|d| - 3 := n]
    ensures |PoppedPair(fs, p)| == |fs| && |Pairs(PoppedPair(fs, p))| == |Pairs(fs)| - 1
  {
    hide Data, Cells, Pairs, PoppedPair;
    PoppedPairIs(fs, p, k);
    PoppedCells(fs, d, k);
  }

  lemma {:induction false} TopIs(fs: seq<Frame>)
    requires fs != []
    ensures Data(fs) == Data(Below(fs)) + ([|Top(fs)|] + Cells(Top(fs)) + [|Top(fs)|])
  {
  }

  lemma {:induction false} Cut(low: seq<int>, n: int, c: seq<int>, k: nat, m: int)
    requires 2 * k + 2 <= |c|
    ensures var d := low + ([n] + c + [n]);
      (d[..|low| + 1 + 2 * k] + d[|low| + 3 + 2 * k..])[|low| := m][|d| - 3 := m]
      == low + ([m] + (c[..2 * k] + c[2 * k + 2..]) + [m])
  {
  }
}
