/** The sizes that the chunks of an encoded file announce: whoever goes from chunk to chunk by them
    meets exactly the chunks of the document. */
module AxmlChunks {
  import opened AxmlIo
  import opened AxmlPool
  import opened AxmlStrings
  import opened AxmlEncoder

  datatype Walk = Kinds(kinds: seq<int>) | Astray

  /** The chunk types met on the way through ws, each chunk's second int being its size in bytes. */
  function WalkOf(ws: seq<Word>): Walk {
    if ws == [] then Kinds([])
    else if |ws| < 2 || ws[1] < 8 || ws[1] % 4 != 0 || ws[1] / 4 > |ws| then Astray
    else match WalkOf(ws[ws[1] / 4..])
      case Astray => Astray
      case Kinds(ks) => Kinds([ws[0] % 0x1_0000] + ks)
  }

  /** A chunk whose size is right. */
  ghost predicate IsChunk(ws: seq<Word>, kind: int) { |ws| >= 2 && ws[1] == 4 * |ws| && ws[0] % 0x1_0000 == kind }

  lemma {:induction false} OneChunk(ws: seq<Word>, kind: int)
    requires IsChunk(ws, kind)
    ensures WalkOf(ws) == Kinds([kind])
  {
    assert ws[|ws|..] == [];
    assert [kind] + [] == [kind];
  }

  lemma {:induction false} WalkOn(xs: seq<Word>, ys: seq<Word>)
    requires WalkOf(xs).Kinds? && WalkOf(ys).Kinds?
    ensures WalkOf(xs + ys) == Kinds(WalkOf(xs).kinds + WalkOf(ys).kinds)
    decreases |xs|
  {
    hide WalkOf;
    if xs == [] {
      assert WalkOf([]) == Kinds([]) by { NoChunks(); }
      assert xs + ys == ys && [] + WalkOf(ys).kinds == WalkOf(ys).kinds;
    } else {
      var n := FirstChunk(xs);
      DropLow(xs, ys, n);
      var m := FirstChunk(xs + ys);
      WalkOn(xs[n..], ys);
    }
  }

  lemma NoChunks()
    ensures WalkOf([]) == Kinds([])
  {
  }

  lemma {:induction false} FirstChunk(ws: seq<Word>) returns (n: nat)
    requires ws != [] && (WalkOf(ws).Kinds? || (|ws| >= 2 && ws[1] >= 8 && ws[1] % 4 == 0 && ws[1] / 4 <= |ws|))
    ensures 2 <= n <= |ws| && ws[1] == 4 * n
    ensures WalkOf(ws) == match WalkOf(ws[n..])
      case Astray => Astray
      case Kinds(ks) => Kinds([ws[0] % 0x1_0000] + ks)
  {
    n := ws[1] / 4;
  }

  lemma {:induction false} DropLow(xs: seq<Word>, ys: seq<Word>, n: nat)
    requires 2 <= n <= |xs|
    ensures (xs + ys)[n..] == xs[n..] + ys && (xs + ys)[0] == xs[0] && (xs + ys)[1] == xs[1]
  {
  }

  // ----- the chunks of a document -----

  function Times(n: nat, kind: int): seq<int> { seq(n, _ => kind) }

  /** Start-namespace chunks (0x0100), the start tag (0x0102), the children, the end tag (0x0103) and the
      end-namespace chunks (0x0101). */
  function TagKinds(e: Element): seq<int>
    decreases e
  {
    Times(|e.declared|, 0x0100) + [0x0102] + AllTagKinds(e.children) + [0x0103] + Times(|e.declared|, 0x0101)
  }

  function AllTagKinds(es: seq<Element>): seq<int>
    decreases es
  {
    if es == [] then [] else AllTagKinds(es[..|es| - 1]) + TagKinds(es[|es| - 1])
  }

  lemma {:induction false} DeclsWalk(kind: Unit, items: seq<Item>, ds: seq<Decl>)
    ensures WalkOf(AllDeclWords(kind, items, ds)) == Kinds(Times(|ds|, kind))
  {
    if ds != [] {
      var n := |ds| - 1;
      DeclsWalk(kind, items, ds[..n]);
      hide IndexWord;
      OneChunk(DeclWords(kind, items, ds[n]), kind);
      WalkOn(AllDeclWords(kind, items, ds[..n]), DeclWords(kind, items, ds[n]));
      assert Times(n, kind) + [kind] == Times(n + 1, kind);
    }
  }

  /** The start tag's size covers its attributes, which begin attrStart bytes behind the header and
      take attrSize bytes each, as its two shorts say. */
  lemma {:induction false} StartIsChunk(items: seq<Item>, e: Element)
    requires |e.attrs| <= 0x7FFF
    ensures var ws := StartWords(items, e);
      var headerSize, attrStart, attrSize := ws[0] / 0x1_0000, ws[6] % 0x1_0000, ws[6] / 0x1_0000;
      && IsChunk(ws, 0x0102)
      && 4 * |ws| == headerSize + attrStart + attrSize * |e.attrs|
      && (headerSize + attrStart) % 4 == 0 && ws[(headerSize + attrStart) / 4..] == AllAttrWords(items, e.attrs)
      && ws[7] % 0x1_0000 == |e.attrs| && attrSize * |e.attrs| == 4 * |AllAttrWords(items, e.attrs)|
  {
    hide IndexWord, AllAttrWords, Marks;
  }

  /** The rest of the format, for what no parser here looks at: a node without a comment, the line of
      its element or 1 for a namespace, and a typed value of eight bytes with a zero byte before its type. */
  lemma {:induction false} NodesAndValues(items: seq<Item>, e: Element, kind: Unit, d: Decl, a: Attr)
    requires |e.attrs| <= 0x7FFF
    ensures StartWords(items, e)[2..4] == EndWords(items, e)[2..4] == [e.line, 0xFFFF_FFFF]
    ensures DeclWords(kind, items, d)[2..4] == [1, 0xFFFF_FFFF]
    ensures var v := AttrWords(items, a)[3]; v % 0x1_0000 == 8 && v / 0x1_0000 % 0x100 == 0 && v / 0x100_0000 == a.kind
  {
    hide IndexWord, AllAttrWords, Marks;
    ValueFields(a.kind);
  }

  lemma ValueFields(kind: Byte)
    ensures var v := 8 + 0x1_0000 * 0 + 0x100_0000 * kind; v % 0x1_0000 == 8 && v / 0x1_0000 % 0x100 == 0 && v / 0x100_0000 == kind
  {
  }

  lemma {:induction false} EndIsChunk(items: seq<Item>, e: Element)
    ensures IsChunk(EndWords(items, e), 0x0103)
  {
    hide IndexWord;
  }

  lemma {:induction false} TagWalk(items: seq<Item>, e: Element)
    requires Countable(e)
    ensures WalkOf(TagWords(items, e)) == Kinds(TagKinds(e))
    decreases e
  {
    hide AllDeclWords, StartWords, EndWords, AllTagWords, AllTagKinds, IsChunk;
    var a, b, c, d, f := AllDeclWords(START_NAMESPACE, items, e.declared), StartWords(items, e), AllTagWords(items, e.children),
      EndWords(items, e), AllDeclWords(END_NAMESPACE, items, e.declared);
    DeclsWalk(START_NAMESPACE, items, e.declared);
    StartIsChunk(items, e);
    OneChunk(b, 0x0102);
    TagsWalk(items, e.children);
    EndIsChunk(items, e);
    OneChunk(d, 0x0103);
    DeclsWalk(END_NAMESPACE, items, e.declared);
    hide WalkOf;
    WalkOn(a, b);
    WalkOn(a + b, c);
    WalkOn(a + b + c, d);
    WalkOn(a + b + c + d, f);
  }

  lemma {:induction false} TagsWalk(items: seq<Item>, es: seq<Element>)
    requires forall e :: e in es ==> Countable(e)
    ensures WalkOf(AllTagWords(items, es)) == Kinds(AllTagKinds(es))
    decreases es
  {
    hide TagWords, TagKinds;
    if es != [] {
      var n := |es| - 1;
      TagsWalk(items, es[..n]);
      TagWalk(items, es[n]);
      WalkOn(AllTagWords(items, es[..n]), TagWords(items, es[n]));
    }
  }

  /** The pool's header of 28 bytes: no styles, no flags, and the strings behind the offsets. */
  lemma {:induction false} PoolIsChunk(strs: seq<Str>)
    requires PoolSize(strs) <= MAX_INT
    ensures var ws := PoolWords(strs);
      && IsChunk(ws, 0x0001) && ws[0] / 0x1_0000 == 28
      && ws[2] == |strs| && ws[3] == 0 && ws[4] == 0 && ws[5] == 28 + 4 * |strs| && ws[6] == 0
  {
    hide Offsets, PackAll, RawSizes;
  }

  lemma {:induction false} MapIsChunk(items: seq<Item>)
    requires ResourceMapSize(items) <= MAX_INT && forall i :: i in items ==> i.id <= MAX_INT
    ensures IsChunk(ResourceMapWords(items), 0x0180) && ResourceMapWords(items)[0] / 0x1_0000 == 8
  {
    hide IdPrefix;
  }

  /** The file's header announces the length of the file, and behind it the sizes lead through the
      string pool, the resource map and the document's tags to the very end. */
  ghost predicate Tiled(ws: seq<Word>, e: Element) {
    && |ws| >= 2 && ws[0] == 0x0008_0003 && ws[1] == 4 * |ws|
    && WalkOf(ws[2..]) == Kinds([0x0001, 0x0180] + TagKinds(e))
  }

  lemma {:induction false} BodyWalk(items: seq<Item>, e: Element)
    requires Countable(e) && FileSize(items, e) <= MAX_INT && forall i :: i in items ==> i.id <= MAX_INT
    ensures WalkOf(PoolWords(Texts(items)) + ResourceMapWords(items) + TagWords(items, e)) == Kinds([0x0001, 0x0180] + TagKinds(e))
  {
    hide PoolWords, ResourceMapWords, TagWords, TagSize, PoolSize, IdPrefix, IsChunk, WalkOf, TagKinds;
    var a, b, c := PoolWords(Texts(items)), ResourceMapWords(items), TagWords(items, e);
    PoolIsChunk(Texts(items));
    OneChunk(a, 0x0001);
    MapIsChunk(items);
    OneChunk(b, 0x0180);
    TagWalk(items, e);
    WalkOn(a, b);
    WalkOn(a + b, c);
    assert [0x0001] + [0x0180] + TagKinds(e) == [0x0001, 0x0180] + TagKinds(e);
  }

  lemma {:induction false} FileWalk(items: seq<Item>, e: Element)
    requires Countable(e) && FileSize(items, e) <= MAX_INT && forall i :: i in items ==> i.id <= MAX_INT
    ensures Tiled(FileWords(items, e), e)
  {
    hide PoolWords, ResourceMapWords, TagWords, TagSize, PoolSize, IdPrefix, WalkOf, TagKinds;
    BodyWalk(items, e);
    BehindHeader(FileSize(items, e), PoolWords(Texts(items)) + ResourceMapWords(items) + TagWords(items, e));
    assert FileHeader(FileSize(items, e)) + PoolWords(Texts(items)) + ResourceMapWords(items) + TagWords(items, e)
      == FileHeader(FileSize(items, e)) + (PoolWords(Texts(items)) + ResourceMapWords(items) + TagWords(items, e));
  }

  lemma {:induction false} BehindHeader(size: Word, body: seq<Word>)
    ensures var ws := FileHeader(size) + body;
      |ws| == 2 + |body| && ws[0] == 0x0008_0003 && ws[1] == size && ws[2..] == body
  {
    assert (FileHeader(size) + body)[2..] == body;
  }
}
