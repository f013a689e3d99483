/** Chunk.write: the chunk tree written int by int, and the whole encoder. */
module AxmlWriter {
  import opened AxmlIo
  import opened AxmlPool
  import opened AxmlStrings
  import opened AxmlEncoder
  import opened AxmlChunks

  /** What w has written since `before` is exactly these ints. */
  ghost predicate Wrote(w: IntWriter, before: seq<Byte>, ws: seq<Word>)
    reads w
  {
    w.Valid() && Aligned(w.out) && WordsOf(w.out) == WordsOf(before) + ws
  }

  /** NodeHeader.write: type and header size, chunk size, line number, no comment. */
  method WriteNodeHeader(w: IntWriter, kind: Unit, size: Word, line: Word)
    requires w.Valid() && Aligned(w.out)
    modifies w
    ensures Wrote(w, old(w.out), [Halves(kind, NODE_HEADER), size, line, NONE])
  {
    hide WordsOf;
    WriteShorts(w, kind, NODE_HEADER);
    w.WriteInt(size);
    w.WriteInt(line);
    w.WriteInt(NONE);
  }

  method WriteIndex(w: IntWriter, pool: StringPool, ns: Option<Str>, text: Str) returns (ok: bool)
    requires w.Valid() && Aligned(w.out)
    modifies w
    ensures ok <==> Found(pool.rawStrings, ns, text)
    ensures ok ==> Wrote(w, old(w.out), [IndexWord(pool.rawStrings, ns, text)])
  {
    hide WordsOf;
    var r;
    ok, r := pool.StringIndex(ns, text);
    if ok {
      w.WriteInt(if 0 <= r <= MAX_INT then r else NONE);
    }
  }

  method WriteDecl(w: IntWriter, pool: StringPool, kind: Unit, line: Word, d: Decl) returns (ok: bool)
    requires w.Valid() && Aligned(w.out) && line == 1
    modifies w
    ensures ok <==> Found(pool.rawStrings, None, d.prefix) && Found(pool.rawStrings, None, d.uri)
    ensures ok ==> Wrote(w, old(w.out), DeclWords(kind, pool.rawStrings, d))
  {
    hide WordsOf, IndexWord, Found;
    WriteNodeHeader(w, kind, 0x18, line);
    ok := WriteIndex(w, pool, None, d.prefix);
    if !ok { return; }
    ok := WriteIndex(w, pool, None, d.uri);
  }

  ghost predicate DeclsFound(items: seq<Item>, ds: seq<Decl>) {
    forall d :: d in ds ==> Found(items, None, d.prefix) && Found(items, None, d.uri)
  }

  method WriteDecls(w: IntWriter, pool: StringPool, kind: Unit, ds: seq<Decl>) returns (ok: bool)
    requires w.Valid() && Aligned(w.out)
    modifies w
    ensures ok <==> DeclsFound(pool.rawStrings, ds)
    ensures ok ==> Wrote(w, old(w.out), AllDeclWords(kind, pool.rawStrings, ds))
  {
    hide WordsOf, DeclWords, Found;
    ok := true;
    for i := 0 to |ds|
      invariant DeclsFound(pool.rawStrings, ds[..i]) && ok
      invariant Wrote(w, old(w.out), AllDeclWords(kind, pool.rawStrings, ds[..i]))
    {
      ok := WriteDecl(w, pool, kind, 1, ds[i]);
      if !ok {
        assert ds[i] in ds;
        return;
      }
      assert ds[..i + 1][..i] == ds[..i] && ds[..i + 1] == ds[..i] + [ds[i]];
    }
    assert ds[..|ds|] == ds;
  }

  /** AttrChunk.writeEx and ValueChunk.writeEx. */
  method WriteAttr(w: IntWriter, pool: StringPool, a: Attr) returns (ok: bool)
    requires w.Valid() && Aligned(w.out)
    modifies w
    ensures ok <==> AttrFound(pool.rawStrings, a)
    ensures ok ==> Wrote(w, old(w.out), AttrWords(pool.rawStrings, a))
  {
    hide WordsOf, IndexWord, Found;
    ok := WriteIndex(w, pool, None, a.ns);
    if !ok { return; }
    ok := WriteIndex(w, pool, Some(a.ns), a.name);
    if !ok { return; }
    if a.kind == TYPE_STRING {
      ok := WriteIndex(w, pool, None, a.raw);
      if !ok { return; }
    } else {
      w.WriteInt(NONE);
    }
    WriteValue(w, pool, a);
  }

  /** ValueChunk.writeEx: size, a zero byte, the type, the data. */
  method WriteValue(w: IntWriter, pool: StringPool, a: Attr)
    requires w.Valid() && Aligned(w.out) && AttrFound(pool.rawStrings, a)
    modifies w
    ensures Wrote(w, old(w.out), AttrWords(pool.rawStrings, a)[3..])
  {
    hide WordsOf, Found, Le4;
    w.WriteShort(8);
    w.WriteByte(0);
    var data := a.data;
    if a.kind == TYPE_STRING {
      var ok, r := pool.StringIndex(None, a.raw);
      data := if 0 <= r <= MAX_INT then r else NONE;
    }
    w.WriteByte(a.kind);
    ShortAndBytesAreInt(8, 0, a.kind);
    assert w.out == old(w.out) + Le4(8 + 0x1_0000 * 0 + 0x100_0000 * a.kind);
    WordWritten(old(w.out), 8 + 0x1_0000 * 0 + 0x100_0000 * a.kind);
    w.WriteInt(data);
  }

  method WriteAttrs(w: IntWriter, pool: StringPool, attrs: seq<Attr>) returns (ok: bool)
    requires w.Valid() && Aligned(w.out)
    modifies w
    ensures ok <==> forall a :: a in attrs ==> AttrFound(pool.rawStrings, a)
    ensures ok ==> Wrote(w, old(w.out), AllAttrWords(pool.rawStrings, attrs))
  {
    hide WordsOf, AttrWords, AttrFound;
    ok := true;
    for i := 0 to |attrs|
      invariant ok && forall a :: a in attrs[..i] ==> AttrFound(pool.rawStrings, a)
      invariant Wrote(w, old(w.out), AllAttrWords(pool.rawStrings, attrs[..i]))
    {
      ok := WriteAttr(w, pool, attrs[i]);
      if !ok {
        assert attrs[i] in attrs;
        return;
      }
      assert attrs[..i + 1][..i] == attrs[..i] && attrs[..i + 1] == attrs[..i] + [attrs[i]];
    }
    assert attrs[..|attrs|] == attrs;
  }

  ghost predicate OwnFound(items: seq<Item>, e: Element) {
    Found(items, None, e.ns) && Found(items, None, e.name) && forall a :: a in e.attrs ==> AttrFound(items, a)
  }

  method WriteStart(w: IntWriter, pool: StringPool, e: Element) returns (ok: bool)
    requires w.Valid() && Aligned(w.out) && |e.attrs| <= 0x7FFF
    modifies w
    ensures ok <==> OwnFound(pool.rawStrings, e)
    ensures ok ==> Wrote(w, old(w.out), StartWords(pool.rawStrings, e))
  {
    hide WordsOf, IndexWord, AttrFound, Found, Marks, AllAttrWords;
    ok := WriteStartFixed(w, pool, e);
    if ok {
      ok := WriteAttrs(w, pool, e.attrs);
    }
  }

  function StartFixed(items: seq<Item>, e: Element): seq<Word>
    requires |e.attrs| <= 0x7FFF
  {
    StartWords(items, e)[..9]
  }

  method WriteStartFixed(w: IntWriter, pool: StringPool, e: Element) returns (ok: bool)
    requires w.Valid() && Aligned(w.out) && |e.attrs| <= 0x7FFF
    modifies w
    ensures ok <==> Found(pool.rawStrings, None, e.ns) && Found(pool.rawStrings, None, e.name)
    ensures ok ==> Wrote(w, old(w.out), StartFixed(pool.rawStrings, e))
  {
    hide WordsOf, IndexWord, Found, Marks, AllAttrWords;
    WriteNodeHeader(w, START_ELEMENT, StartSize(e), e.line);
    ok := WriteIndex(w, pool, None, e.ns);
    if !ok { return; }
    ok := WriteIndex(w, pool, None, e.name);
    if !ok { return; }
    WriteShorts(w, 20, 20);
    var (id, style, clazz) := Marks(e.attrs);
    WriteShorts(w, |e.attrs|, id);
    WriteShorts(w, clazz, style);
  }

  method WriteEnd(w: IntWriter, pool: StringPool, e: Element) returns (ok: bool)
    requires w.Valid() && Aligned(w.out)
    modifies w
    ensures ok <==> Found(pool.rawStrings, None, e.ns) && Found(pool.rawStrings, None, e.name)
    ensures ok ==> Wrote(w, old(w.out), EndWords(pool.rawStrings, e))
  {
    hide WordsOf, IndexWord, Found;
    WriteNodeHeader(w, END_ELEMENT, 24, e.line);
    ok := WriteIndex(w, pool, None, e.ns);
    if !ok { return; }
    ok := WriteIndex(w, pool, None, e.name);
  }

  /** TagChunk.writeEx. The bytes written are as many as calc announced. */
  method WriteTag(w: IntWriter, pool: StringPool, e: Element) returns (ok: bool)
    requires w.Valid() && Aligned(w.out) && Countable(e)
    modifies w
    ensures ok <==> AllFound(pool.rawStrings, e)
    ensures ok ==> Wrote(w, old(w.out), TagWords(pool.rawStrings, e))
    ensures ok ==> w.pos - old(w.pos) == TagSize(e)
    decreases e
  {
    hide WordsOf, Found, AttrFound, StartWords, EndWords, AllDeclWords, AllTagWords, TagSize;
    ghost var items := pool.rawStrings;
    ok := WriteDecls(w, pool, START_NAMESPACE, e.declared);
    if !ok { return; }
    ok := WriteStart(w, pool, e);
    if !ok { return; }
    ok := WriteTags(w, pool, e.children);
    if !ok { return; }
    ok := WriteEnd(w, pool, e);
    if !ok { return; }
    ok := WriteDecls(w, pool, END_NAMESPACE, e.declared);
    WordsLength(w.out, old(w.out), TagWords(items, e));
  }

  method WriteTags(w: IntWriter, pool: StringPool, es: seq<Element>) returns (ok: bool)
    requires w.Valid() && Aligned(w.out) && forall e :: e in es ==> Countable(e)
    modifies w
    ensures ok <==> forall e :: e in es ==> AllFound(pool.rawStrings, e)
    ensures ok ==> Wrote(w, old(w.out), AllTagWords(pool.rawStrings, es))
    decreases es
  {
    hide WordsOf, AllFound, TagWords;
    ok := true;
    for i := 0 to |es|
      invariant ok && forall e :: e in es[..i] ==> AllFound(pool.rawStrings, e)
      invariant Wrote(w, old(w.out), AllTagWords(pool.rawStrings, es[..i]))
    {
      ok := WriteTag(w, pool, es[i]);
      if !ok {
        assert es[i] in es;
        return;
      }
      assert es[..i + 1][..i] == es[..i] && es[..i + 1] == es[..i] + [es[i]];
    }
    assert es[..|es|] == es;
  }

  lemma WordsLength(after: seq<Byte>, before: seq<Byte>, ws: seq<Word>)
    requires Aligned(after) && Aligned(before) && WordsOf(after) == WordsOf(before) + ws
    ensures |after| - |before| == 4 * |ws|
  {
  }

  /** RawString.write: the length cut to a short, the units, a zero, and the padding. */
  method WriteRaw(w: IntWriter, s: Str)
    requires w.Valid() && Aligned(w.out)
    modifies w
    ensures Wrote(w, old(w.out), Pack(Shorts(s)))
    ensures w.pos - old(w.pos) == RawSize(s)
  {
    hide WordsOf, Pack, AllLe2, Le2;
    ghost var hs := Shorts(s);
    NextLe2(hs, 0);
    w.WriteShort(|s| % 0x1_0000);
    assert w.out == old(w.out) + AllLe2(hs[..1]);
    for i := 0 to |s|
      invariant w.Valid() && w.out == old(w.out) + AllLe2(hs[..i + 1])
    {
      NextLe2(hs, i + 1);
      assert hs[i + 1] == s[i];
      w.WriteShort(s[i]);
    }
    NextLe2(hs, |s| + 1);
    w.WriteShort(0);
    if |s| % 2 == 1 {
      NextLe2(hs, |s| + 2);
      w.WriteShort(0);
    }
    assert hs[..|hs|] == hs;
    assert w.out == old(w.out) + AllLe2(hs);
    ShortsWritten(old(w.out), hs);
    WordsLength(w.out, old(w.out), Pack(hs));
  }

  lemma {:induction false} NextLe2(hs: seq<Unit>, i: nat)
    requires i < |hs|
    ensures AllLe2(hs[..i + 1]) == AllLe2(hs[..i]) + Le2(hs[i]) && (i == 0 ==> AllLe2(hs[..i]) == [])
  {
    hide Le2;
    assert hs[..i + 1][..i] == hs[..i];
  }

  ghost function AllLe2(hs: seq<Unit>): seq<Byte> {
    if hs == [] then [] else AllLe2(hs[..|hs| - 1]) + Le2(hs[|hs| - 1])
  }

  lemma {:induction false} ShortsWritten(bs: seq<Byte>, hs: seq<Unit>)
    requires Aligned(bs) && |hs| % 2 == 0
    ensures Aligned(bs + AllLe2(hs)) && WordsOf(bs + AllLe2(hs)) == WordsOf(bs) + Pack(hs)
  {
    hide WordsOf, Le2, Le4;
    if hs == [] {
      assert bs + [] == bs;
    } else {
      var n := |hs| - 2;
      ShortsWritten(bs, hs[..n]);
      ShortsAreInt(hs[n], hs[n + 1]);
      assert hs[..n + 1][..n] == hs[..n];
      var low := bs + AllLe2(hs[..n]);
      assert bs + AllLe2(hs) == low + Le4(Halves(hs[n], hs[n + 1]));
      WordWritten(low, Halves(hs[n], hs[n + 1]));
    }
  }

  method WriteRaws(w: IntWriter, strs: seq<Str>)
    requires w.Valid() && Aligned(w.out)
    modifies w
    ensures Wrote(w, old(w.out), PackAll(strs))
  {
    hide WordsOf, Pack, Shorts;
    for i := 0 to |strs|
      invariant Wrote(w, old(w.out), PackAll(strs[..i]))
    {
      WriteRaw(w, strs[i]);
      assert strs[..i + 1][..i] == strs[..i];
    }
    assert strs[..|strs|] == strs;
  }

  method WriteInts(w: IntWriter, ws: seq<Word>)
    requires w.Valid() && Aligned(w.out)
    modifies w
    ensures Wrote(w, old(w.out), ws)
  {
    hide WordsOf;
    for i := 0 to |ws|
      invariant Wrote(w, old(w.out), ws[..i])
    {
      w.WriteInt(ws[i]);
      assert ws[..i + 1] == ws[..i] + [ws[i]];
    }
    assert ws[..|ws|] == ws;
  }

  /** The offsets that preWrite collects. */
  method StringOffsets(strs: seq<Str>) returns (offsets: seq<Word>)
    requires RawSizes(strs) <= MAX_INT
    ensures offsets == Offsets(strs)
  {
    offsets := [];
    var off := 0;
    for i := 0 to |strs|
      invariant off == RawSizes(strs[..i]) <= RawSizes(strs)
      invariant offsets == Offsets(strs[..i])
    {
      assert strs[..i + 1][..i] == strs[..i];
      RawSizesGrow(strs, i + 1);
      offsets := offsets + [off];
      off := off + RawSize(strs[i]);
    }
    assert strs[..|strs|] == strs;
  }

  lemma {:induction false} RawSizesGrow(strs: seq<Str>, i: nat)
    requires i <= |strs|
    ensures RawSizes(strs[..i]) <= RawSizes(strs)
  {
    if i == |strs| {
      assert strs[..i] == strs;
    } else {
      RawSizesGrow(strs[..|strs| - 1], i);
      assert strs[..|strs| - 1][..i] == strs[..i];
    }
  }

  /** StringPoolChunk.write. */
  method WritePool(w: IntWriter, strs: seq<Str>)
    requires w.Valid() && Aligned(w.out) && PoolSize(strs) <= MAX_INT
    modifies w
    ensures Wrote(w, old(w.out), PoolWords(strs))
  {
    hide WordsOf, PackAll, Offsets, RawSizes;
    WriteShorts(w, 0x0001, POOL_HEADER);
    w.WriteInt(PoolSize(strs));
    w.WriteInt(|strs|);
    w.WriteInt(0);
    w.WriteInt(0);
    w.WriteInt(|strs| * 4 + POOL_HEADER);
    w.WriteInt(0);
    assert Wrote(w, old(w.out), PoolHeader(strs));
    var offsets := StringOffsets(strs);
    WriteInts(w, offsets);
    WriteRaws(w, strs);
  }

  method WriteResourceMap(w: IntWriter, items: seq<Item>)
    requires w.Valid() && Aligned(w.out) && ResourceMapSize(items) <= MAX_INT
    requires forall i :: i in items ==> i.id <= MAX_INT
    modifies w
    ensures Wrote(w, old(w.out), ResourceMapWords(items))
  {
    hide WordsOf, IdPrefix;
    var ids := ResourceIds(items);
    WriteShorts(w, 0x0180, 8);
    w.WriteInt(|ids| * 4 + 8);
    for k := 0 to |ids|
      invariant Wrote(w, old(w.out), ResourceMapWords(items)[..k + 2])
    {
      assert items[k] in items;
      w.WriteInt(ids[k]);
      assert ResourceMapWords(items)[..k + 3] == ResourceMapWords(items)[..k + 2] + [ids[k]];
    }
    assert ResourceMapWords(items)[..|ids| + 2] == ResourceMapWords(items);
  }

  // ----- the whole encoder -----

  /** The document's strings: those its pool ends up with. */
  function DocTexts(e: Element): set<Str> { TagTexts(e) + ValueTexts(e) }

  /** What encode does: the bytes; the exception for a string that is not in the pool; or sizes
      beyond a Java int, where this model stops. */
  datatype Outcome = Encoded(out: seq<Byte>) | UnknownNamespace | TooLarge

  /** The frozen pool of a document: sorted by id, ids and texts as the document has them. */
  ghost predicate ProperItems(items: seq<Item>, ids: Ids, texts: set<Str>) {
    Sorted(items) && forall i :: i in items ==> i.text in texts && ItemOk(ids, i) && -1 <= i.id < MAX_INT
  }

  /** The chunk constructors, then calc: the content first, which completes the pool, then the
      pool, which freezes it. */
  method Prepare(e: Element, ids: Ids) returns (pool: StringPool)
    requires ProperIds(ids)
    ensures fresh(pool) && ProperItems(pool.rawStrings, ids, DocTexts(e))
    ensures AllFound(pool.rawStrings, e) <==> NamespacesIn(DocTexts(e), e)
    ensures ItemNames(pool.rawStrings) == DocNames(e)
  {
    pool := new StringPool(ids);
    Register(pool, e);
    ghost var before := pool.lists;
    Evaluate(pool, e);
    RegisteredStays(before, pool.lists, ValueTexts(e), {}, e);
    NoNames();
    hide Names, Registered, Holds, DocNames, TagTexts, ValueTexts;
    assert pool.lists.Keys == DocTexts(e);
    var order := KeyOrder(pool.lists.Keys);
    pool.Freeze(order);
    LookupsSucceed(pool.lists, pool.rawStrings, e);
  }

  lemma NoNames()
    ensures Names(map[]) == {}
  {
  }

  /** HashMap.values yields the lists in some order. */
  method KeyOrder(keys: set<Str>) returns (order: seq<Str>)
    ensures forall t :: t in order <==> t in keys
  {
    order := [];
    var left := keys;
    while left != {}
      invariant left <= keys && forall t :: t in order <==> t in keys - left
      decreases left
    {
      var t :| t in left;
      order := order + [t];
      left := left - {t};
    }
  }

  method WriteFile(e: Element, pool: StringPool) returns (ok: bool, out: seq<Byte>)
    requires Countable(e) && FileSize(pool.rawStrings, e) <= MAX_INT
    requires forall i :: i in pool.rawStrings ==> i.id <= MAX_INT
    ensures ok <==> AllFound(pool.rawStrings, e)
    ensures ok ==> Aligned(out) && WordsOf(out) == FileWords(pool.rawStrings, e)
  {
    hide WordsOf, PoolWords, ResourceMapWords, TagWords, AllFound, IdPrefix, TagSize, PoolSize;
    var w := new IntWriter();
    WriteShorts(w, 0x0003, 8);
    w.WriteInt(FileSize(pool.rawStrings, e));
    assert WordsOf([]) == [] by { WordsOfNone(); }
    assert WordsOf(w.out) == FileHeader(FileSize(pool.rawStrings, e));
    WritePool(w, Texts(pool.rawStrings));
    WriteResourceMap(w, pool.rawStrings);
    ok := WriteTag(w, pool, e);
    out := w.out;
  }

  lemma WordsOfNone()
    ensures WordsOf([]) == []
  {
  }

  const XML_NAMESPACE := Text("http://www.w3.org/XML/1998/namespace")

  /** A document that the encoder refuses although it is well-formed: the xml prefix is bound
      without a declaration, so xml:lang uses a namespace that is not in the pool. */
  lemma {:induction false} XmlLangIsRefused()
    ensures var e := Element(1, [], Text("a"), [], [Attr(XML_NAMESPACE, Text("lang"), Text("en"), TYPE_STRING, 0)], []);
      !NamespacesIn(DocTexts(e), e)
  {
    var a := Attr(XML_NAMESPACE, Text("lang"), Text("en"), TYPE_STRING, 0);
    var e := Element(1, [], Text("a"), [], [a], []);
    assert |XML_NAMESPACE| == 36 && |Text("a")| == 1 && |Text("lang")| == 4 && |Text("en")| == 2;
    hide Text, XML_NAMESPACE;
    assert [a][..0] == [];
    assert NameTexts([a]) == NameTexts([]) + {a.name} && OwnValues([a]) == OwnValues([]) + {a.raw};
    assert NameTexts([a]) == {Text("lang")} && OwnValues([a]) == {Text("en")};
    assert TagTexts(e) == OwnTexts(e) + AllTagTexts([]) == {Text("a"), Text("lang")};
    assert ValueTexts(e) == OwnValues([a]) + AllValueTexts([]) == {Text("en")};
    assert DocTexts(e) == {Text("a"), Text("lang"), Text("en")};
    assert a in e.attrs && a.ns !in DocTexts(e) && a.ns != [];
  }

  /** AxmlUtil.encode after parsing. It fails exactly when an element or attribute uses a
      namespace that is not one of the document's strings. */
  method Encode(e: Element, ids: Ids) returns (r: Outcome, ghost items: seq<Item>)
    requires ProperIds(ids) && Countable(e)
    ensures ProperItems(items, ids, DocTexts(e)) && ItemNames(items) == DocNames(e)
    ensures r.TooLarge? <==> FileSize(items, e) > MAX_INT
    ensures !r.TooLarge? ==> (r.Encoded? <==> NamespacesIn(DocTexts(e), e))
    ensures r.Encoded? ==> AllFound(items, e) && Aligned(r.out) && WordsOf(r.out) == FileWords(items, e)
    ensures r.Encoded? ==> Tiled(WordsOf(r.out), e)
  {
    hide WordsOf, FileWords, FileSize, AllFound, NamespacesIn, DocTexts, Sorted, ItemOk, ItemNames, DocNames, Tiled;
    var pool := Prepare(e, ids);
    items := pool.rawStrings;
    if FileSize(pool.rawStrings, e) > MAX_INT {
      return TooLarge, items;
    }
    var ok, out := WriteFile(e, pool);
    FileWalk(items, e);
    return if ok then Encoded(out) else UnknownNamespace, items;
  }
}
