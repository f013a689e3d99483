/** Decoding what the encoder wrote gives the document back. */
module AxmlRoundTrip {
  import opened AxmlIo
  import opened AxmlPool
  import opened AxmlStrings
  import opened AxmlEncoder
  import opened AxmlWriter
  import opened AxmlParser
  import opened NamespaceStacks

  // ----- what the parser should report -----

  /** The empty string is written as index -1, which reads back as null. */
  function Read(s: Str): Lookup { if s == [] then Null else Got(s) }

  /** The resource id that stands beside the name's string, or 0. */
  function ResourceOf(items: seq<Item>, a: Attr): int {
    var i := Index(items, Some(a.ns), a.name);
    if 0 <= i < |items| && items[i].id >= 0 then items[i].id else 0
  }

  /** The prefix of the last declaration of the uri: of the innermost element that declares it, and
      there of the one that comes last. */
  function LastPrefix(ds: seq<Decl>, uri: Str): Option<Str> {
    if ds == [] then None
    else if ds[|ds| - 1].uri == uri then Some(ds[|ds| - 1].prefix)
    else LastPrefix(ds[..|ds| - 1], uri)
  }

  /** What getPrefix and getAttributePrefix answer without a declaration: null and "". */
  function ReadPrefix(p: Option<Str>): Lookup { if p.None? then Null else Read(p.value) }
  function PrefixOrEmpty(p: Option<Str>): Lookup { if p.None? then Got([]) else Got(p.value) }

  function ExpectAttr(items: seq<Item>, ds: seq<Decl>, a: Attr): AttrView {
    AttrView(Got(a.ns), PrefixOrEmpty(LastPrefix(ds, a.ns)), Got(a.name), ResourceOf(items, a), a.kind,
             if a.kind == TYPE_STRING then IndexWord(items, None, a.raw) else a.data,
             if a.kind == TYPE_STRING then Read(a.raw) else Got([]))
  }

  function ExpectAttrs(items: seq<Item>, ds: seq<Decl>, attrs: seq<Attr>): seq<AttrView> {
    seq(|attrs|, i requires 0 <= i < |attrs| => ExpectAttr(items, ds, attrs[i]))
  }

  function ExpectScope(ds: seq<Decl>): seq<(Lookup, Lookup)> {
    seq(|ds|, i requires 0 <= i < |ds| => (Read(ds[i].prefix), Read(ds[i].uri)))
  }

  /** The last attribute with this namespace and name, or -1. */
  function LastAt(attrs: seq<Attr>, ns: Str, name: Str): int {
    if attrs == [] then -1
    else if attrs[|attrs| - 1].ns == ns && attrs[|attrs| - 1].name == name then |attrs| - 1
    else LastAt(attrs[..|attrs| - 1], ns, name)
  }

  /** The encoder writes a position, or 0 for none; the parser takes a position plus one, or 0. */
  function ExpectMark(last: int): int { if last <= 0 then -1 else last - 1 }

  function ExpectSpecial(attrs: seq<Attr>): Special {
    Special(ExpectMark(LastAt(attrs, ANDROID, Text("id"))), ExpectMark(LastAt(attrs, [], Text("class"))),
            ExpectMark(LastAt(attrs, [], Text("style"))))
  }

  function ExpectStart(items: seq<Item>, e: Element, scope: seq<Decl>): Event {
    var ds := scope + e.declared;
    TagStart(Signed(e.line), Read(e.ns), ReadPrefix(LastPrefix(ds, e.ns)), Read(e.name), ExpectAttrs(items, ds, e.attrs),
             ExpectSpecial(e.attrs), ExpectScope(ds))
  }

  function ExpectEnd(e: Element, scope: seq<Decl>): Event {
    var ds := scope + e.declared;
    TagEnd(Signed(e.line), Read(e.ns), ReadPrefix(LastPrefix(ds, e.ns)), Read(e.name), ExpectScope(ds))
  }

  /** Start tag, children, end tag; scope lists the namespaces declared around the element. */
  function Expect(items: seq<Item>, e: Element, scope: seq<Decl>): seq<Event>
    decreases e
  {
    [ExpectStart(items, e, scope)] + ExpectAll(items, e.children, scope + e.declared) + [ExpectEnd(e, scope)]
  }

  function ExpectAll(items: seq<Item>, es: seq<Element>, scope: seq<Decl>): seq<Event>
    decreases es
  {
    if es == [] then [] else ExpectAll(items, es[..|es| - 1], scope) + Expect(items, es[|es| - 1], scope)
  }

  // ----- strings and indices -----

  /** The pool as both sides see it. */
  ghost predicate Context(items: seq<Item>, b: Block, ids: seq<Word>) {
    && PoolSize(Texts(items)) <= MAX_INT
    && b == BlockOf(Texts(items))
    && (forall i :: i in items ==> |i.text| <= 0xFFFF && -1 <= i.id < MAX_INT)
    && Sorted(items)
    && ids == IdPrefix(items)
  }

  lemma {:induction false} IndexReadsBack(items: seq<Item>, b: Block, ids: seq<Word>, ns: Option<Str>, s: Str)
    requires Context(items, b, ids) && Found(items, ns, s)
    ensures StringAt(b, Signed(IndexWord(items, ns, s))) == Read(s)
    ensures StringOrEmpty(b, Signed(IndexWord(items, ns, s))) == Got(s)
    ensures var r := Signed(IndexWord(items, ns, s)); r == Index(items, ns, s) && r < |items|
  {
    if s != [] {
      var r := Index(items, ns, s);
      assert items[r] in items;
      assert Texts(items)[r] == s;
      hide Index;
      StringReadsBack(Texts(items), r);
    }
  }

  lemma {:induction false} ResourceReadsBack(items: seq<Item>, b: Block, ids: seq<Word>, a: Attr)
    requires Context(items, b, ids) && Found(items, Some(a.ns), a.name)
    ensures var r := Signed(IndexWord(items, Some(a.ns), a.name));
      (if 0 <= r < |ids| then ids[r] else 0) == ResourceOf(items, a)
  {
    IndexReadsBack(items, b, ids, Some(a.ns), a.name);
    var r := Index(items, Some(a.ns), a.name);
    hide Index, IndexWord;
    if r >= 0 {
      MapCoversIds(items, r);
    }
  }

  // ----- where the ints are -----

  /** xs stands at position p of ws. */
  ghost predicate Sub(ws: seq<Word>, p: nat, xs: seq<Word>) { p + |xs| <= |ws| && ws[p..p + |xs|] == xs }

  lemma {:induction false} SubSplit(ws: seq<Word>, p: nat, xs: seq<Word>, ys: seq<Word>)
    requires Sub(ws, p, xs + ys)
    ensures Sub(ws, p, xs) && Sub(ws, p + |xs|, ys)
  {
    var zs := ws[p..p + |xs + ys|];
    assert ws[p..p + |xs|] == zs[..|xs|] && ws[p + |xs|..p + |xs| + |ys|] == zs[|xs|..];
  }

  lemma {:induction false} SubAt(ws: seq<Word>, p: nat, xs: seq<Word>, k: nat)
    requires Sub(ws, p, xs) && k < |xs|
    ensures ws[p + k] == xs[k]
  {
    assert ws[p..p + |xs|][k] == xs[k];
  }

  // ----- namespace chunks -----

  function IndexPair(items: seq<Item>, d: Decl): Pair {
    (Signed(IndexWord(items, None, d.prefix)), Signed(IndexWord(items, None, d.uri)))
  }

  function IndexPairs(items: seq<Item>, ds: seq<Decl>): (r: seq<Pair>)
    ensures |r| == |ds|
  {
    seq(|ds|, i requires 0 <= i < |ds| => IndexPair(items, ds[i]))
  }

  /** The parser's frames hold exactly these declarations, all of them in the pool. */
  ghost predicate InScope(items: seq<Item>, frames: seq<Frame>, ds: seq<Decl>) {
    Pairs(frames) == IndexPairs(items, ds) && DeclsFound(items, ds)
  }

  lemma {:induction false} ScopeReads(items: seq<Item>, b: Block, ids: seq<Word>, frames: seq<Frame>, ds: seq<Decl>)
    requires Context(items, b, ids) && InScope(items, frames, ds)
    ensures Scope(b, Pairs(frames)) == ExpectScope(ds)
  {
    hide Context, Found, StringAt, IndexWord;
    forall i | 0 <= i < |ds| ensures Scope(b, IndexPairs(items, ds))[i] == ExpectScope(ds)[i] {
      assert ds[i] in ds;
      IndexReadsBack(items, b, ids, None, ds[i].prefix);
      IndexReadsBack(items, b, ids, None, ds[i].uri);
    }
  }

  /** Two strings of the pool have the same index only if they are the same. */
  lemma {:induction false} IndexIsOwn(items: seq<Item>, b: Block, ids: seq<Word>, x: Str, y: Str)
    requires Context(items, b, ids) && Found(items, None, x) && Found(items, None, y)
    ensures Signed(IndexWord(items, None, x)) == Signed(IndexWord(items, None, y)) <==> x == y
  {
    hide Context, Found, StringAt, IndexWord;
    IndexReadsBack(items, b, ids, None, x);
    IndexReadsBack(items, b, ids, None, y);
  }

  /** The prefix found for a uri is that of its last declaration. */
  lemma {:induction false} PrefixReads(items: seq<Item>, b: Block, ids: seq<Word>, ds: seq<Decl>, uri: Str)
    requires Context(items, b, ids) && DeclsFound(items, ds) && Found(items, None, uri)
    ensures var r := PrefixOf(IndexPairs(items, ds), Signed(IndexWord(items, None, uri)));
      StringAt(b, r) == ReadPrefix(LastPrefix(ds, uri)) && StringOrEmpty(b, r) == PrefixOrEmpty(LastPrefix(ds, uri))
    decreases |ds|
  {
    hide Context, Found, IndexWord;
    if ds != [] {
      var n := |ds| - 1;
      assert ds[n] in ds;
      assert IndexPairs(items, ds)[..n] == IndexPairs(items, ds[..n]);
      IndexIsOwn(items, b, ids, ds[n].uri, uri);
      IndexReadsBack(items, b, ids, None, ds[n].prefix);
      if ds[n].uri != uri {
        PrefixReads(items, b, ids, ds[..n], uri);
      }
      hide StringAt, StringOrEmpty;
    }
  }

  /** doNext does not stop here for the end of the document, nor for a pending start tag. */
  ghost predicate Quiet(c: Core) {
    !c.decrease && c.event != StartDocument && !(c.event == EndTag && |c.frames| == 1 && Top(c.frames) == [])
  }

  lemma {:induction false} OneDecl(ws: seq<Word>, c: Core, kind: Unit, items: seq<Item>, d: Decl)
    requires Quiet(c) && Sub(ws, c.pos, DeclWords(kind, items, d))
    requires kind == START_NAMESPACE || kind == END_NAMESPACE
    ensures Next(ws, c) == Next(ws, c.(pos := c.pos + 6,
      frames := if kind == START_NAMESPACE then Pushed(c.frames, IndexPair(items, d)) else Popped(c.frames)))
  {
    hide IndexWord, StartBody;
    var xs := DeclWords(kind, items, d);
    SubAt(ws, c.pos, xs, 0);
    SubAt(ws, c.pos, xs, 4);
    SubAt(ws, c.pos, xs, 5);
    assert Next(ws, c) == Turn(ws, c) == Chunk(ws, c) by {
      assert c.(frames := Settled(c.decrease, c.frames), decrease := false) == c;
    }
  }

  /** Start-namespace chunks pass silently and push their pairs into the top frame. */
  lemma {:induction false} DeclsPushed(ws: seq<Word>, c: Core, items: seq<Item>, ds: seq<Decl>)
    requires Quiet(c) && c.frames != [] && (c.event == EndTag ==> |c.frames| >= 2)
    requires Sub(ws, c.pos, AllDeclWords(START_NAMESPACE, items, ds))
    ensures Next(ws, c) == Next(ws, c.(pos := c.pos + 6 * |ds|, frames := Below(c.frames) + [Top(c.frames) + IndexPairs(items, ds)]))
    decreases |ds|
  {
    hide Next, DeclWords;
    if ds == [] {
      assert Top(c.frames) + IndexPairs(items, ds) == Top(c.frames);
      assert Below(c.frames) + [Top(c.frames)] == c.frames;
    } else {
      var low, d := ds[..|ds| - 1], ds[|ds| - 1];
      SubSplit(ws, c.pos, AllDeclWords(START_NAMESPACE, items, low), DeclWords(START_NAMESPACE, items, d));
      DeclsPushed(ws, c, items, low);
      var frames := Below(c.frames) + [Top(c.frames) + IndexPairs(items, low)];
      OneDecl(ws, c.(pos := c.pos + 6 * |low|, frames := frames), START_NAMESPACE, items, d);
      assert Below(frames) == Below(c.frames) && Top(frames) + [IndexPair(items, d)] == Top(c.frames) + IndexPairs(items, ds);
    }
  }

  /** One end-namespace chunk, the top frame being cs. */
  lemma {:induction false} PopOne(ws: seq<Word>, c: Core, items: seq<Item>, d: Decl, cs: Frame)
    requires !c.decrease && c.event == EndTag && c.frames != [] && cs != []
    requires Sub(ws, c.pos, DeclWords(END_NAMESPACE, items, d))
    ensures Next(ws, c.(frames := Below(c.frames) + [cs]))
      == Next(ws, c.(pos := c.pos + 6, frames := Below(c.frames) + [cs[..|cs| - 1]]))
  {
    hide Next, DeclWords;
    var c1 := c.(frames := Below(c.frames) + [cs]);
    assert Top(c1.frames) == cs && Below(c1.frames) == Below(c.frames);
    OneDecl(ws, c1, END_NAMESPACE, items, d);
  }

  /** End-namespace chunks pass silently and pop as many pairs, in whatever order they come; at
      the bottom frame the last pair's chunk is still read. */
  lemma {:induction false} DeclsPopped(ws: seq<Word>, c: Core, items: seq<Item>, ds: seq<Decl>)
    requires !c.decrease && c.event == EndTag && c.frames != [] && |Top(c.frames)| >= |ds|
    requires Sub(ws, c.pos, AllDeclWords(END_NAMESPACE, items, ds))
    ensures Next(ws, c) == Next(ws, Unwound(c, |ds|))
    decreases |ds|
  {
    hide *;
    if ds == [] {
      UnwoundNone(c);
    } else {
      var n := |ds| - 1;
      LastDecl(ws, c.pos, items, ds);
      DeclsPopped(ws, c, items, ds[..n]);
      PopNext(ws, c, items, ds[n], n);
    }
  }

  lemma {:induction false} LastDecl(ws: seq<Word>, p: nat, items: seq<Item>, ds: seq<Decl>)
    requires ds != [] && Sub(ws, p, AllDeclWords(END_NAMESPACE, items, ds))
    ensures Sub(ws, p, AllDeclWords(END_NAMESPACE, items, ds[..|ds| - 1]))
    ensures Sub(ws, p + 6 * (|ds| - 1), DeclWords(END_NAMESPACE, items, ds[|ds| - 1]))
  {
    hide DeclWords, Sub;
    SubSplit(ws, p, AllDeclWords(END_NAMESPACE, items, ds[..|ds| - 1]), DeclWords(END_NAMESPACE, items, ds[|ds| - 1]));
  }

  lemma UnwoundNone(c: Core)
    requires c.frames != []
    ensures Unwound(c, 0) == c
  {
    assert Top(c.frames)[..|Top(c.frames)|] == Top(c.frames);
    assert Below(c.frames) + [Top(c.frames)] == c.frames;
  }

  /** c after n silent end-namespace chunks. */
  function Unwound(c: Core, n: nat): Core
    requires c.frames != [] && |Top(c.frames)| >= n
  {
    c.(pos := c.pos + 6 * n, frames := Below(c.frames) + [Top(c.frames)[..|Top(c.frames)| - n]])
  }

  lemma {:induction false} PopNext(ws: seq<Word>, c: Core, items: seq<Item>, d: Decl, n: nat)
    requires !c.decrease && c.event == EndTag && c.frames != [] && |Top(c.frames)| > n
    requires Sub(ws, c.pos + 6 * n, DeclWords(END_NAMESPACE, items, d))
    ensures Next(ws, Unwound(c, n)) == Next(ws, Unwound(c, n + 1))
  {
    hide Next, DeclWords, Sub, Top, Below;
    var cs := Top(c.frames);
    PopOne(ws, c.(pos := c.pos + 6 * n), items, d, cs[..|cs| - n]);
    assert cs[..|cs| - n][..|cs| - n - 1] == cs[..|cs| - n - 1];
  }

  // ----- tags -----

  lemma {:induction false} AttrWordsAt(items: seq<Item>, attrs: seq<Attr>, i: nat, k: nat)
    requires i < |attrs| && k < 5
    ensures AllAttrWords(items, attrs)[5 * i + k] == AttrWords(items, attrs[i])[k]
  {
    hide AttrWords;
    var n := |attrs| - 1;
    if i < n {
      AttrWordsAt(items, attrs[..n], i, k);
    }
  }

  lemma {:induction false} AttrCells(items: seq<Item>, attrs: seq<Attr>, i: nat)
    requires i < |attrs|
    ensures var a, cut := attrs[i], TypesCut(AllAttrWords(items, attrs));
      && cut[5 * i] == AttrWords(items, a)[0] && cut[5 * i + 1] == AttrWords(items, a)[1]
      && cut[5 * i + 2] == AttrWords(items, a)[2] && cut[5 * i + 3] == a.kind && cut[5 * i + 4] == AttrWords(items, a)[4]
  {
    CutCell(items, attrs, i, 0);
    CutCell(items, attrs, i, 1);
    CutCell(items, attrs, i, 2);
    CutCell(items, attrs, i, 3);
    CutCell(items, attrs, i, 4);
    hide AllAttrWords, IndexWord, TypesCut;
  }

  lemma {:induction false} CutCell(items: seq<Item>, attrs: seq<Attr>, i: nat, k: nat)
    requires i < |attrs| && k < 5
    ensures TypesCut(AllAttrWords(items, attrs))[5 * i + k] == if k == 3 then attrs[i].kind else AttrWords(items, attrs[i])[k]
  {
    hide AllAttrWords, AttrWords, IndexWord;
    AttrWordsAt(items, attrs, i, k);
    KindOnTop(items, attrs[i]);
    assert (5 * i + k) % 5 == k;
  }

  lemma {:induction false} KindOnTop(items: seq<Item>, a: Attr)
    ensures AttrWords(items, a)[3] / 0x100_0000 == a.kind
  {
    TopByte(a.kind);
  }

  lemma TopByte(kind: Byte)
    ensures (8 + 0x1_0000 * 0 + 0x100_0000 * kind) / 0x100_0000 == kind
  {
  }

  lemma {:induction false} AttrReadsBack(items: seq<Item>, b: Block, ids: seq<Word>, ds: seq<Decl>, attrs: seq<Attr>, i: nat)
    requires Context(items, b, ids) && DeclsFound(items, ds) && i < |attrs| && AttrFound(items, attrs[i])
    ensures AttrAt(b, ids, IndexPairs(items, ds), TypesCut(AllAttrWords(items, attrs)), i) == ExpectAttr(items, ds, attrs[i])
  {
    hide Context, AllAttrWords, IndexWord, Found, StringAt, Index, StringOrEmpty, TypesCut, ResourceOf, PrefixOf, LastPrefix, DeclsFound, IndexPairs;
    PrefixReads(items, b, ids, ds, attrs[i].ns);
    var a := attrs[i];
    AttrCells(items, attrs, i);
    IndexReadsBack(items, b, ids, None, a.ns);
    IndexReadsBack(items, b, ids, Some(a.ns), a.name);
    ResourceReadsBack(items, b, ids, a);
    if a.kind == TYPE_STRING {
      IndexReadsBack(items, b, ids, None, a.raw);
    }
  }

  /** The state and the data after the start tag at p. */
  function AfterStart(c: Core, p: nat, e: Element): Core { Core(p + 9 + 5 * |e.attrs|, c.ids, Deepened(c.frames), false, StartTag) }

  function StartInfo(items: seq<Item>, e: Element): Info {
    Info(Signed(e.line), Signed(IndexWord(items, None, e.ns)), Signed(IndexWord(items, None, e.name)),
         TypesCut(AllAttrWords(items, e.attrs)), ExpectSpecial(e.attrs))
  }

  lemma {:induction false} LastAtIs(attrs: seq<Attr>, ns: Str, name: Str, i: int)
    requires LastNamed(attrs, ns, name, i)
    ensures LastAt(attrs, ns, name) == i
  {
    if attrs != [] {
      var n := |attrs| - 1;
      if i < n {
        assert LastNamed(attrs[..n], ns, name, i);
        LastAtIs(attrs[..n], ns, name, i);
      }
    }
  }

  lemma {:induction false} SpecialReadsBack(attrs: seq<Attr>)
    requires |attrs| <= 0x7FFF
    ensures var (id, style, clazz) := Marks(attrs);
      SpecialOf(Halves(|attrs|, id), Halves(clazz, style)) == ExpectSpecial(attrs)
  {
    var id, clazz, style := MarksAreLast(attrs);
    LastAtIs(attrs, ANDROID, Text("id"), id);
    LastAtIs(attrs, [], Text("class"), clazz);
    LastAtIs(attrs, [], Text("style"), style);
    hide Marks, LastAt, LastNamed, Text, ANDROID;
  }

  lemma {:induction false} StartInts(ws: seq<Word>, p: nat, items: seq<Item>, e: Element)
    requires |e.attrs| <= 0x7FFF && Sub(ws, p, StartWords(items, e))
    ensures p + 9 + 5 * |e.attrs| <= |ws| && ws[p + 9..p + 9 + 5 * |e.attrs|] == AllAttrWords(items, e.attrs)
    ensures ws[p + 2] == e.line && ws[p + 4] == IndexWord(items, None, e.ns) && ws[p + 5] == IndexWord(items, None, e.name)
    ensures var (id, style, clazz) := Marks(e.attrs); ws[p + 7] == Halves(|e.attrs|, id) && ws[p + 8] == Halves(clazz, style)
  {
    hide AllAttrWords, IndexWord, Marks, Halves;
    var xs, all := StartWords(items, e), AllAttrWords(items, e.attrs);
    SubSplit(ws, p, xs[..9], all);
    SubAt(ws, p, xs, 2);
    SubAt(ws, p, xs, 4);
    SubAt(ws, p, xs, 5);
    SubAt(ws, p, xs, 7);
    SubAt(ws, p, xs, 8);
  }

  lemma {:induction false} StartReadsBack(ws: seq<Word>, c: Core, p: nat, items: seq<Item>, e: Element)
    requires |e.attrs| <= 0x7FFF && Sub(ws, p, StartWords(items, e))
    ensures StartBody(ws, c, p + 1) == Some((AfterStart(c, p, e), StartInfo(items, e)))
  {
    hide Sub, StartWords, AllAttrWords, IndexWord, Marks, TypesCut, SpecialOf, ExpectSpecial;
    StartInts(ws, p, items, e);
    SpecialReadsBack(e.attrs);
    assert ws[p + 7] % 0x1_0000 == |e.attrs|;
  }

  lemma {:induction false} AttrsRead(items: seq<Item>, b: Block, ids: seq<Word>, ds: seq<Decl>, attrs: seq<Attr>)
    requires Context(items, b, ids) && DeclsFound(items, ds) && forall a :: a in attrs ==> AttrFound(items, a)
    ensures AttrViews(b, ids, IndexPairs(items, ds), TypesCut(AllAttrWords(items, attrs))) == ExpectAttrs(items, ds, attrs)
  {
    hide Context, AttrFound, AttrAt, ExpectAttr, AllAttrWords, IndexPairs, DeclsFound, TypesCut;
    var cut, ps := TypesCut(AllAttrWords(items, attrs)), IndexPairs(items, ds);
    forall i | 0 <= i < |attrs| ensures AttrAt(b, ids, ps, cut, i) == ExpectAttr(items, ds, attrs[i]) {
      AttrReadsBack(items, b, ids, ds, attrs, i);
    }
  }

  lemma {:induction false} StartView(items: seq<Item>, b: Block, c: Core, p: nat, e: Element, scope: seq<Decl>)
    requires Context(items, b, c.ids) && OwnFound(items, e)
    requires InScope(items, c.frames, scope + e.declared)
    ensures View(b, AfterStart(c, p, e), StartInfo(items, e)) == ExpectStart(items, e, scope)
  {
    hide Context, Found, StringAt, AttrFound, PrefixOf, LastPrefix, AttrViews, ExpectAttrs, AllAttrWords, IndexWord, Scope, ExpectScope,
      IndexPairs, DeclsFound, TypesCut, ExpectSpecial, StringOrEmpty, PrefixOrEmpty;
    var ds := scope + e.declared;
    ScopeReads(items, b, c.ids, c.frames, ds);
    PrefixReads(items, b, c.ids, ds, e.ns);
    IndexReadsBack(items, b, c.ids, None, e.ns);
    IndexReadsBack(items, b, c.ids, None, e.name);
    AttrsRead(items, b, c.ids, ds, e.attrs);
    assert Deepened(c.frames)[..|c.frames|] == c.frames && Pairs(Deepened(c.frames)) == Pairs(c.frames) + [] == Pairs(c.frames);
  }

  /** The state after an end tag at p, its frame still to be closed. */
  function AfterEnd(c: Core, p: nat): Core { c.(pos := p + 6, decrease := true, event := EndTag) }

  function EndInfo(items: seq<Item>, e: Element): Info {
    Info(Signed(e.line), Signed(IndexWord(items, None, e.ns)), Signed(IndexWord(items, None, e.name)), [], NoSpecial)
  }

  lemma {:induction false} EndReadsBack(ws: seq<Word>, c: Core, items: seq<Item>, e: Element)
    requires Quiet(c) && Sub(ws, c.pos, EndWords(items, e))
    ensures Next(ws, c) == Some((AfterEnd(c, c.pos), EndInfo(items, e)))
  {
    hide IndexWord;
    var xs := EndWords(items, e);
    SubAt(ws, c.pos, xs, 0);
    SubAt(ws, c.pos, xs, 2);
    SubAt(ws, c.pos, xs, 4);
    SubAt(ws, c.pos, xs, 5);
    assert Next(ws, c) == Turn(ws, c) == Chunk(ws, c) by {
      assert c.(frames := Settled(c.decrease, c.frames), decrease := false) == c;
    }
  }

  lemma {:induction false} EndView(items: seq<Item>, b: Block, c: Core, p: nat, e: Element, scope: seq<Decl>)
    requires Context(items, b, c.ids) && Found(items, None, e.ns) && Found(items, None, e.name)
    requires InScope(items, c.frames, scope + e.declared)
    ensures View(b, AfterEnd(c, p), EndInfo(items, e)) == ExpectEnd(e, scope)
  {
    hide Context, Found, StringAt, PrefixOf, LastPrefix;
    ScopeReads(items, b, c.ids, c.frames, scope + e.declared);
    PrefixReads(items, b, c.ids, scope + e.declared, e.ns);
    IndexReadsBack(items, b, c.ids, None, e.ns);
    IndexReadsBack(items, b, c.ids, None, e.name);
  }

  // ----- runs -----

  /** From c on the parser reports these events and then what it reports from c'. */
  ghost predicate RunsTo(b: Block, ws: seq<Word>, c: Core, events: seq<Event>, c': Core) {
    Run(b, ws, c).0 == events + Run(b, ws, c').0 && Run(b, ws, c).1 == Run(b, ws, c').1
  }

  lemma {:induction false} RunsOn(b: Block, ws: seq<Word>, c: Core, xs: seq<Event>, c1: Core, ys: seq<Event>, c2: Core)
    requires RunsTo(b, ws, c, xs, c1) && RunsTo(b, ws, c1, ys, c2)
    ensures RunsTo(b, ws, c, xs + ys, c2)
  {
    hide Run;
    assert xs + (ys + Run(b, ws, c2).0) == xs + ys + Run(b, ws, c2).0;
  }

  lemma {:induction false} RunsSilently(b: Block, ws: seq<Word>, c: Core, c1: Core)
    requires Next(ws, c) == Next(ws, c1)
    ensures RunsTo(b, ws, c, [], c1)
  {
    RunStep(b, ws, c);
    RunStep(b, ws, c1);
    hide Run, Next;
    assert [] + Run(b, ws, c1).0 == Run(b, ws, c1).0;
  }

  lemma {:induction false} RunsOver(b: Block, ws: seq<Word>, c: Core, c1: Core, info: Info)
    requires Next(ws, c) == Some((c1, info)) && c1.event != EndDocument
    ensures RunsTo(b, ws, c, [View(b, c1, info)], c1)
  {
    RunStep(b, ws, c);
  }

  lemma {:induction false} NextSettled(ws: seq<Word>, c: Core)
    ensures Next(ws, c) == Next(ws, c.(frames := Settled(c.decrease, c.frames), decrease := false))
  {
    hide Turn;
    var c1 := c.(frames := Settled(c.decrease, c.frames), decrease := false);
    assert c1.(frames := Settled(c1.decrease, c1.frames), decrease := false) == c1;
  }

  /** The frames inside an element: its declarations in the frame below, an empty frame on top. */
  function InnerFrames(below: seq<Frame>, top: Frame, ps: seq<Pair>): seq<Frame> { below + [top + ps] + [[]] }

  /** From just after a start tag to just after the element's last end-namespace chunk. */
  lemma {:induction false} InnerRuns(b: Block, ws: seq<Word>, c: Core, items: seq<Item>, e: Element, scope: seq<Decl>,
      below: seq<Frame>, top: Frame)
    requires Countable(e) && AllFound(items, e) && Context(items, b, c.ids)
    requires c.event == StartTag && !c.decrease && c.frames == InnerFrames(below, top, IndexPairs(items, e.declared))
    requires InScope(items, c.frames, scope + e.declared)
    requires Sub(ws, c.pos, AllTagWords(items, e.children) + EndWords(items, e) + AllDeclWords(END_NAMESPACE, items, e.declared))
    ensures RunsTo(b, ws, c, ExpectAll(items, e.children, scope + e.declared) + [ExpectEnd(e, scope)],
      Core(c.pos + |AllTagWords(items, e.children)| + 6 + 6 * |e.declared|, c.ids, below + [top], false, EndTag))
    decreases e, 0
  {
    hide Run, Next, RunsTo, View, Context, Found, EndWords, AllDeclWords, AttrFound, ExpectAll, ExpectEnd, EndInfo, AllTagWords, TagSize;
    var kids, ends, ps := AllTagWords(items, e.children), EndWords(items, e), IndexPairs(items, e.declared);
    assert |ends| == 6 by { EndLength(items, e); }
    SubSplit(ws, c.pos, kids + ends, AllDeclWords(END_NAMESPACE, items, e.declared));
    SubSplit(ws, c.pos, kids, ends);
    TagsRun(b, ws, c, items, e.children, scope + e.declared);
    var c3 := if e.children == [] then c else Core(c.pos + |kids|, c.ids, c.frames, false, EndTag);
    assert c3.pos == c.pos + |kids|;
    EndReadsBack(ws, c3, items, e);
    EndView(items, b, c3, c3.pos, e, scope);
    var c4 := AfterEnd(c3, c3.pos);
    RunsOver(b, ws, c3, c4, EndInfo(items, e));
    RunsOn(b, ws, c, ExpectAll(items, e.children, scope + e.declared), c3, [ExpectEnd(e, scope)], c4);
    EndsSilently(ws, c4, items, e.declared, below, top);
    var c5 := Core(c4.pos + 6 * |e.declared|, c.ids, below + [top], false, EndTag);
    RunsSilently(b, ws, c4, c5);
    var events := ExpectAll(items, e.children, scope + e.declared) + [ExpectEnd(e, scope)];
    RunsOn(b, ws, c, events, c4, [], c5);
    assert events + [] == events;
  }

  lemma EndLength(items: seq<Item>, e: Element)
    ensures |EndWords(items, e)| == 6
  {
  }

  /** Closing the element's frame and undoing its declarations. */
  lemma {:induction false} EndsSilently(ws: seq<Word>, c: Core, items: seq<Item>, ds: seq<Decl>, below: seq<Frame>, top: Frame)
    requires c.event == EndTag && c.decrease && c.frames == InnerFrames(below, top, IndexPairs(items, ds))
    requires Sub(ws, c.pos, AllDeclWords(END_NAMESPACE, items, ds))
    ensures Next(ws, c) == Next(ws, Core(c.pos + 6 * |ds|, c.ids, below + [top], false, EndTag))
  {
    hide Next, AllDeclWords;
    var ps := IndexPairs(items, ds);
    var c1 := c.(frames := below + [top + ps], decrease := false);
    assert Settled(c.decrease, c.frames) == c1.frames;
    NextSettled(ws, c);
    assert Top(c1.frames) == top + ps && Below(c1.frames) == below;
    DeclsPopped(ws, c1, items, ds);
    assert (top + ps)[..|top|] == top;
  }

  lemma {:induction false} TagsRun(b: Block, ws: seq<Word>, c: Core, items: seq<Item>, es: seq<Element>, scope: seq<Decl>)
    requires (forall e :: e in es ==> Countable(e) && AllFound(items, e)) && Context(items, b, c.ids)
    requires c.event == StartTag || c.event == EndTag
    requires var f := Settled(c.decrease, c.frames); |f| >= 2 && InScope(items, f, scope)
    requires Sub(ws, c.pos, AllTagWords(items, es))
    ensures RunsTo(b, ws, c, ExpectAll(items, es, scope),
      if es == [] then c else Core(c.pos + |AllTagWords(items, es)|, c.ids, Settled(c.decrease, c.frames), false, EndTag))
    decreases es
  {
    hide Run, Next, View, Context, TagWords, InScope, Expect;
    if es == [] {
      hide *;
      RunsSilently(b, ws, c, c);
    } else {
      var n := |es| - 1;
      SubSplit(ws, c.pos, AllTagWords(items, es[..n]), TagWords(items, es[n]));
      TagsRun(b, ws, c, items, es[..n], scope);
      var f := Settled(c.decrease, c.frames);
      var c1 := if n == 0 then c else Core(c.pos + |AllTagWords(items, es[..n])|, c.ids, f, false, EndTag);
      TagRuns(b, ws, c1, items, es[n], scope);
      RunsOn(b, ws, c, ExpectAll(items, es[..n], scope), c1, Expect(items, es[n], scope),
             Core(c1.pos + |TagWords(items, es[n])|, c.ids, f, false, EndTag));
    }
  }

  /** The events of one element that is not the root. */
  lemma {:induction false} TagRuns(b: Block, ws: seq<Word>, c: Core, items: seq<Item>, e: Element, scope: seq<Decl>)
    requires Countable(e) && AllFound(items, e) && Context(items, b, c.ids)
    requires c.event == StartTag || c.event == EndTag
    requires var f := Settled(c.decrease, c.frames); |f| >= 2 && InScope(items, f, scope)
    requires Sub(ws, c.pos, TagWords(items, e))
    ensures RunsTo(b, ws, c, Expect(items, e, scope),
      Core(c.pos + |TagWords(items, e)|, c.ids, Settled(c.decrease, c.frames), false, EndTag))
    decreases e, 1
  {
    hide Run, Next, RunsTo, View, Context, Found, AllDeclWords, StartWords, EndWords, AllTagWords, AttrFound, InScope;
    var f := Settled(c.decrease, c.frames);
    var below, top, ps := Below(f), Top(f), IndexPairs(items, e.declared);
    TagParts(ws, c.pos, items, e);
    var c1 := Core(c.pos + 6 * |e.declared|, c.ids, below + [top + ps], false, c.event);
    var c2 := AfterStart(c1, c1.pos, e);
    TagStarts(ws, c, c1, items, e);
    assert below + [top] == f;
    ScopeGrows(items, below, top, scope, e);
    StartView(items, b, c1, c1.pos, e, scope);
    RunsOver(b, ws, c, c2, StartInfo(items, e));
    assert c2.frames == InnerFrames(below, top, ps);
    InnerRuns(b, ws, c2, items, e, scope, below, top);
    var rest := ExpectAll(items, e.children, scope + e.declared) + [ExpectEnd(e, scope)];
    RunsOn(b, ws, c, [ExpectStart(items, e, scope)], c2, rest, Core(c.pos + |TagWords(items, e)|, c.ids, f, false, EndTag));
    assert [ExpectStart(items, e, scope)] + rest == Expect(items, e, scope);
  }

  /** The chunks of a tag, one after the other. */
  lemma {:induction false} TagParts(ws: seq<Word>, p: nat, items: seq<Item>, e: Element)
    requires Countable(e) && Sub(ws, p, TagWords(items, e))
    ensures Sub(ws, p, AllDeclWords(START_NAMESPACE, items, e.declared))
    ensures Sub(ws, p + 6 * |e.declared|, StartWords(items, e))
    ensures Sub(ws, p + 6 * |e.declared| + |StartWords(items, e)|,
      AllTagWords(items, e.children) + EndWords(items, e) + AllDeclWords(END_NAMESPACE, items, e.declared))
    ensures |TagWords(items, e)| == 12 * |e.declared| + |StartWords(items, e)| + |AllTagWords(items, e.children)| + 6
  {
    hide AllDeclWords, StartWords, EndWords, AllTagWords;
    var decls, start := AllDeclWords(START_NAMESPACE, items, e.declared), StartWords(items, e);
    var inner := AllTagWords(items, e.children) + EndWords(items, e) + AllDeclWords(END_NAMESPACE, items, e.declared);
    EndLength(items, e);
    assert TagWords(items, e) == decls + (start + inner);
    SubSplit(ws, p, decls, start + inner);
    SubSplit(ws, p + |decls|, start, inner);
  }

  /** doNext reads the declarations of an element silently and stops at its start tag. */
  lemma {:induction false} TagStarts(ws: seq<Word>, c: Core, c1: Core, items: seq<Item>, e: Element)
    requires |e.attrs| <= 0x7FFF && (c.event == StartTag || c.event == EndTag) && |Settled(c.decrease, c.frames)| >= 2
    requires Sub(ws, c.pos, AllDeclWords(START_NAMESPACE, items, e.declared))
    requires Sub(ws, c.pos + 6 * |e.declared|, StartWords(items, e))
    requires var f := Settled(c.decrease, c.frames);
      c1 == Core(c.pos + 6 * |e.declared|, c.ids, Below(f) + [Top(f) + IndexPairs(items, e.declared)], false, c.event)
    ensures Next(ws, c) == Some((AfterStart(c1, c1.pos, e), StartInfo(items, e)))
  {
    hide Next, AllDeclWords, StartWords;
    NextSettled(ws, c);
    DeclsPushed(ws, c.(frames := Settled(c.decrease, c.frames), decrease := false), items, e.declared);
    StartRead(ws, c1, items, e);
  }

  lemma {:induction false} StartRead(ws: seq<Word>, c: Core, items: seq<Item>, e: Element)
    requires Quiet(c) && c.event != NoEvent && |e.attrs| <= 0x7FFF && Sub(ws, c.pos, StartWords(items, e))
    ensures Next(ws, c) == Some((AfterStart(c, c.pos, e), StartInfo(items, e)))
  {
    StartReadsBack(ws, c, c.pos, items, e);
    SubAt(ws, c.pos, StartWords(items, e), 0);
    hide IndexWord, Marks, StartBody, AllAttrWords;
    assert Next(ws, c) == Turn(ws, c) == Chunk(ws, c) by {
      assert c.(frames := Settled(c.decrease, c.frames), decrease := false) == c;
    }
  }

  /** A text chunk: a node header, the index of its string, and two ints of no meaning. */
  function TextWords(size: Word, line: Word, text: Word, x: Word, y: Word): seq<Word> {
    [Halves(0x0104, NODE_HEADER), size, line, NONE, text, x, y]
  }

  /** The encoder writes no text; a text chunk from elsewhere reads back its line and its string. */
  lemma {:induction false} TextRuns(b: Block, ws: seq<Word>, c: Core, size: Word, line: Word, text: Word, x: Word, y: Word)
    requires c.event != StartDocument && Sub(ws, c.pos, TextWords(size, line, text, x, y))
    requires var f := Settled(c.decrease, c.frames); !(c.event == EndTag && |f| == 1 && Top(f) == [])
    ensures RunsTo(b, ws, c, [Txt(Signed(line), StringAt(b, Signed(text)))],
      Core(c.pos + 7, c.ids, Settled(c.decrease, c.frames), false, TextEvent))
  {
    hide Run, RunsTo;
    var xs, c1 := TextWords(size, line, text, x, y), c.(frames := Settled(c.decrease, c.frames), decrease := false);
    SubAt(ws, c.pos, xs, 0);
    SubAt(ws, c.pos, xs, 2);
    SubAt(ws, c.pos, xs, 4);
    assert Next(ws, c) == Turn(ws, c1) == Chunk(ws, c1);
    RunsOver(b, ws, c, Core(c.pos + 7, c.ids, c1.frames, false, TextEvent), Info(Signed(line), -1, Signed(text), [], NoSpecial));
  }

  /** Declaring an element's namespaces adds them to the scope. */
  lemma {:induction false} ScopeGrows(items: seq<Item>, below: seq<Frame>, top: Frame, scope: seq<Decl>, e: Element)
    requires AllFound(items, e) && InScope(items, below + [top], scope)
    ensures InScope(items, below + [top + IndexPairs(items, e.declared)], scope + e.declared)
    ensures InScope(items, InnerFrames(below, top, IndexPairs(items, e.declared)), scope + e.declared)
  {
    hide Found, AttrFound, IndexWord;
    var ps := IndexPairs(items, e.declared);
    var f, f' := below + [top], below + [top + ps];
    assert f[..|f| - 1] == below && f'[..|f'| - 1] == below;
    assert Pairs(f') == Pairs(f) + ps == IndexPairs(items, scope + e.declared);
    assert InnerFrames(below, top, ps)[..|f'|] == f' && Pairs(InnerFrames(below, top, ps)) == Pairs(f') + [] == Pairs(f');
  }

  // ----- the whole document -----

  lemma {:induction false} ResourceMapSilent(ws: seq<Word>, c: Core, items: seq<Item>)
    requires Quiet(c) && ResourceMapSize(items) <= MAX_INT && forall i :: i in items ==> i.id <= MAX_INT
    requires Sub(ws, c.pos, ResourceMapWords(items))
    ensures Next(ws, c) == Next(ws, c.(pos := c.pos + |ResourceMapWords(items)|, ids := ResourceMapWords(items)[2..]))
    ensures ResourceMapWords(items)[2..] == IdPrefix(items)
  {
    var xs := ResourceMapWords(items);
    SubAt(ws, c.pos, xs, 0);
    SubAt(ws, c.pos, xs, 1);
    hide IdPrefix;
    assert ws[c.pos + 2..c.pos + |xs|] == ws[c.pos..c.pos + |xs|][2..];
    assert Next(ws, c) == Turn(ws, c) by {
      assert c.(frames := Settled(c.decrease, c.frames), decrease := false) == c;
    }
  }

  /** The first event, START_DOCUMENT, takes the type of the root's start tag off the stream. */
  lemma {:induction false} RootOpens(b: Block, ws: seq<Word>, c: Core, items: seq<Item>, e: Element) returns (c1: Core)
    requires |e.attrs| <= 0x7FFF && c.event == NoEvent && !c.decrease && c.frames == [[]]
    requires Sub(ws, c.pos, AllDeclWords(START_NAMESPACE, items, e.declared)) && Sub(ws, c.pos + 6 * |e.declared|, StartWords(items, e))
    ensures c1 == c.(pos := c.pos + 6 * |e.declared|, frames := [IndexPairs(items, e.declared)])
    ensures RunsTo(b, ws, c, [DocumentStart], c1.(pos := c1.pos + 1, event := StartDocument))
  {
    hide Run, RunsTo, AllDeclWords, AllAttrWords, IndexWord, Marks, Next;
    var ps := IndexPairs(items, e.declared);
    assert Below(c.frames) == [] && [] + ps == ps;
    DeclsPushed(ws, c, items, e.declared);
    c1 := c.(pos := c.pos + 6 * |e.declared|, frames := [ps]);
    assert [] + [Top(c.frames) + ps] == [ps];
    SubAt(ws, c1.pos, StartWords(items, e), 0);
    var c2 := c1.(pos := c1.pos + 1, event := StartDocument);
    DocumentStarts(ws, c1, c2);
    RunsOver(b, ws, c, c2, NoInfo);
  }

  /** START_TAG goes on from there. */
  lemma {:induction false} RootStarts(b: Block, ws: seq<Word>, c: Core, items: seq<Item>, e: Element)
    requires Countable(e) && AllFound(items, e) && Context(items, b, c.ids)
    requires c.event == NoEvent && !c.decrease && c.frames == [[]]
    requires Sub(ws, c.pos, AllDeclWords(START_NAMESPACE, items, e.declared) + StartWords(items, e))
    ensures RunsTo(b, ws, c, [DocumentStart, ExpectStart(items, e, [])],
      Core(c.pos + 6 * |e.declared| + |StartWords(items, e)|, c.ids, InnerFrames([], [], IndexPairs(items, e.declared)), false, StartTag))
  {
    hide Run, RunsTo, Context, Found, AttrFound, AllDeclWords, StartBody, InScope, ExpectStart, StartInfo, TagSize, AllAttrWords, IndexWord, Marks;
    var ps := IndexPairs(items, e.declared);
    SubSplit(ws, c.pos, AllDeclWords(START_NAMESPACE, items, e.declared), StartWords(items, e));
    var c1 := RootOpens(b, ws, c, items, e);
    var c2 := c1.(pos := c1.pos + 1, event := StartDocument);
    StartReadsBack(ws, c2, c1.pos, items, e);
    var c3 := AfterStart(c2, c1.pos, e);
    assert Next(ws, c2) == Some((c3, StartInfo(items, e))) by {
      assert c2.(frames := Settled(c2.decrease, c2.frames), decrease := false) == c2;
    }
    hide Next;
    EmptyScope(items);
    ScopeGrows(items, [], [], [], e);
    assert [] + ps == ps && [] + [[] + ps] == [ps];
    StartView(items, b, c2, c1.pos, e, []);
    RunsOver(b, ws, c2, c3, StartInfo(items, e));
    RunsOn(b, ws, c, [DocumentStart], c2, [ExpectStart(items, e, [])], c3);
    assert c3.frames == InnerFrames([], [], ps);
    assert [DocumentStart] + [ExpectStart(items, e, [])] == [DocumentStart, ExpectStart(items, e, [])];
  }

  lemma {:induction false} DocumentStarts(ws: seq<Word>, c: Core, c2: Core)
    requires c.event == NoEvent && !c.decrease && c.pos < |ws| && ws[c.pos] == Halves(START_ELEMENT, NODE_HEADER)
    requires c2 == c.(pos := c.pos + 1, event := StartDocument)
    ensures Next(ws, c) == Some((c2, NoInfo))
  {
    assert Next(ws, c) == Turn(ws, c) == Chunk(ws, c) by {
      assert c.(frames := Settled(c.decrease, c.frames), decrease := false) == c;
    }
  }

  lemma {:induction false} EmptyScope(items: seq<Item>)
    ensures InScope(items, [] + [[]], [])
  {
    var fs: seq<Frame> := [[]];
    assert [] + fs == fs;
    assert fs[..0] == [] && Pairs(fs) == [];
  }

  lemma {:induction false} Ends(b: Block, ws: seq<Word>, c: Core)
    requires c.event == EndTag && !c.decrease && c.frames == [[]]
    ensures Run(b, ws, c) == ([DocumentEnd], true)
  {
    assert Next(ws, c) == Turn(ws, c) by {
      assert c.(frames := Settled(c.decrease, c.frames), decrease := false) == c;
    }
    RunStep(b, ws, c);
  }

  ghost predicate ShortTexts(items: seq<Item>) { forall i :: i in items ==> |i.text| <= 0xFFFF }

  /** Round trip: the parser opens the encoder's file and reports the start of the document, the
      elements' events in document order, and the end of the document at the very end of the file,
      after the root's last end-namespace chunk. */
  lemma {:induction false} RoundTrip(items: seq<Item>, ids: Ids, texts: set<Str>, e: Element) returns (last: Core)
    requires Countable(e) && FileSize(items, e) <= MAX_INT && AllFound(items, e)
    requires ProperItems(items, ids, texts) && ShortTexts(items)
    ensures var ws := FileWords(items, e);
      match Opening(ws)
      case None => false
      case Some((b, c)) =>
        && RunsTo(b, ws, c, [DocumentStart] + Expect(items, e, []), last) && last.pos == |ws|
        && Run(b, ws, c) == ([DocumentStart] + Expect(items, e, []) + [DocumentEnd], true)
  {
    hide RunsTo, Run, Next, Context, AllFound, TagWords, PoolWords, ResourceMapWords, Opening, Expect, TagSize, PoolSize, IdPrefix, BlockOf, Sub;
    FileOpens(items, e);
    FileParts(items, e);
    var ws, b, res := FileWords(items, e), BlockOf(Texts(items)), ResourceMapWords(items);
    var c := Core(2 + |PoolWords(Texts(items))|, [], [[]], false, NoEvent);
    ResourceMapSilent(ws, c, items);
    var c1 := c.(pos := c.pos + |res|, ids := res[2..]);
    ContextHolds(items, ids, texts, b, c1.ids);
    last := DocumentRuns(b, ws, c, c1, items, e);
  }

  lemma {:induction false} DocumentRuns(b: Block, ws: seq<Word>, c: Core, c1: Core, items: seq<Item>, e: Element)
      returns (last: Core)
    requires Countable(e) && AllFound(items, e) && Context(items, b, c1.ids)
    requires Next(ws, c) == Next(ws, c1) && c1.event == NoEvent && !c1.decrease && c1.frames == [[]]
    requires Sub(ws, c1.pos, TagWords(items, e))
    ensures RunsTo(b, ws, c, [DocumentStart] + Expect(items, e, []), last)
    ensures last.pos == c1.pos + |TagWords(items, e)|
    ensures Run(b, ws, c) == ([DocumentStart] + Expect(items, e, []) + [DocumentEnd], true)
  {
    hide Run, RunsTo, Context, AllFound, TagWords, Next, Expect, Sub, TagSize;
    RunsSilently(b, ws, c, c1);
    last := TagIsRun(b, ws, c1, items, e);
    var events := [DocumentStart] + Expect(items, e, []);
    RunsOn(b, ws, c, [], c1, events, last);
    assert [] + events == events;
    Ends(b, ws, last);
    RunsToEnd(b, ws, c, events, last);
  }

  lemma {:induction false} RunsToEnd(b: Block, ws: seq<Word>, c: Core, xs: seq<Event>, last: Core)
    requires RunsTo(b, ws, c, xs, last) && Run(b, ws, last) == ([DocumentEnd], true)
    ensures Run(b, ws, c) == (xs + [DocumentEnd], true)
  {
    hide Run;
  }

  lemma ContextHolds(items: seq<Item>, ids: Ids, texts: set<Str>, b: Block, map_: seq<Word>)
    requires ProperItems(items, ids, texts) && ShortTexts(items) && PoolSize(Texts(items)) <= MAX_INT
    requires b == BlockOf(Texts(items)) && map_ == IdPrefix(items)
    ensures Context(items, b, map_)
  {
    hide IdPrefix, PoolSize, Texts, BlockOf;
  }

  /** The root from its declarations to the end of the document. */
  lemma {:induction false} TagIsRun(b: Block, ws: seq<Word>, c: Core, items: seq<Item>, e: Element) returns (last: Core)
    requires Countable(e) && AllFound(items, e) && Context(items, b, c.ids)
    requires c.event == NoEvent && !c.decrease && c.frames == [[]]
    requires Sub(ws, c.pos, TagWords(items, e))
    ensures RunsTo(b, ws, c, [DocumentStart] + Expect(items, e, []), last)
    ensures last == Core(c.pos + |TagWords(items, e)|, c.ids, [[]], false, EndTag)
  {
    hide Run, RunsTo, Context, Found, AttrFound, AllDeclWords, StartWords, EndWords, AllTagWords, InScope, ExpectAll, ExpectEnd, ExpectStart;
    var decls, start := AllDeclWords(START_NAMESPACE, items, e.declared), StartWords(items, e);
    var inner := AllTagWords(items, e.children) + EndWords(items, e) + AllDeclWords(END_NAMESPACE, items, e.declared);
    assert TagWords(items, e) == (decls + start) + inner;
    EndLength(items, e);
    SubSplit(ws, c.pos, decls + start, inner);
    RootStarts(b, ws, c, items, e);
    var c2 := Core(c.pos + 6 * |e.declared| + |start|, c.ids, InnerFrames([], [], IndexPairs(items, e.declared)), false, StartTag);
    EmptyScope(items);
    ScopeGrows(items, [], [], [], e);
    InnerRuns(b, ws, c2, items, e, [], [], []);
    last := Core(c.pos + |TagWords(items, e)|, c.ids, [[]], false, EndTag);
    var head, rest := [DocumentStart, ExpectStart(items, e, [])], ExpectAll(items, e.children, [] + e.declared) + [ExpectEnd(e, [])];
    assert [] + last.frames == last.frames;
    RunsOn(b, ws, c, head, c2, rest, last);
    assert head + rest == [DocumentStart] + Expect(items, e, []);
  }

  lemma {:induction false} FileOpens(items: seq<Item>, e: Element)
    requires Countable(e) && FileSize(items, e) <= MAX_INT && forall i :: i in items ==> i.id <= MAX_INT
    ensures Opening(FileWords(items, e))
         == Some((BlockOf(Texts(items)), Core(2 + |PoolWords(Texts(items))|, [], [[]], false, NoEvent)))
  {
    hide PoolWords, ResourceMapWords, TagWords, BlockAt, TagSize, PoolSize, IdPrefix;
    var h, after := FileHeader(FileSize(items, e)), ResourceMapWords(items) + TagWords(items, e);
    assert FileWords(items, e) == h + PoolWords(Texts(items)) + after;
    PoolReadsBack(Texts(items), h, after);
  }

  lemma {:induction false} FileParts(items: seq<Item>, e: Element)
    requires Countable(e) && FileSize(items, e) <= MAX_INT && forall i :: i in items ==> i.id <= MAX_INT
    ensures var ws, p := FileWords(items, e), 2 + |PoolWords(Texts(items))|;
      && Sub(ws, p, ResourceMapWords(items))
      && Sub(ws, p + |ResourceMapWords(items)|, TagWords(items, e))
      && |ws| == p + |ResourceMapWords(items)| + |TagWords(items, e)|
  {
    hide PoolWords, ResourceMapWords, TagWords, TagSize, PoolSize, IdPrefix;
  }

  // ----- encode, then decode -----

  /** AxmlUtil.encode followed by the decoding loop, on any document whose strings have at most
      65535 units: nothing is lost. */
  method EncodeAndDecode(e: Element, ids: Ids) returns (r: Outcome, ok: bool, events: seq<Event>, ghost items: seq<Item>)
    requires ProperIds(ids) && Countable(e)
    requires forall t :: t in DocTexts(e) ==> |t| <= 0xFFFF
    ensures ProperItems(items, ids, DocTexts(e)) && ItemNames(items) == DocNames(e)
    ensures r.TooLarge? <==> FileSize(items, e) > MAX_INT
    ensures !r.TooLarge? ==> (r.Encoded? <==> NamespacesIn(DocTexts(e), e))
    ensures r.Encoded? ==> ok && events == [DocumentStart] + Expect(items, e, []) + [DocumentEnd]
  {
    hide WordsOf, FileWords, FileSize, AllFound, NamespacesIn, DocTexts, Run, Expect, Opening, ItemNames, DocNames;
    ok, events := false, [];
    r, items := Encode(e, ids);
    if r.Encoded? {
      var parser := new Parser(r.out);
      ok, events := parser.ReadAll();
      ghost var last := RoundTrip(items, ids, DocTexts(e), e);
    }
  }

  /** For an attribute with a namespace the reported resource id is the one getIdentifier gave for
      that namespace and name, or 0 where there was none. */
  lemma {:induction false} ResourceIsOwn(items: seq<Item>, ids: Ids, texts: set<Str>, a: Attr)
    requires ProperItems(items, ids, texts) && Found(items, Some(a.ns), a.name) && a.ns != [] && a.name != []
    ensures ResourceOf(items, a) == if ids(a.ns, a.name) >= 0 then ids(a.ns, a.name) else 0
  {
    var i := Index(items, Some(a.ns), a.name);
    assert items[i] in items;
  }

  /** The ids that getIdentifier gives for this name in the namespaces that the document's
      attributes of the name have. */
  function IdsOfName(e: Element, ids: Ids, name: Str): set<int> {
    set x | x in DocNames(e) && x.1 == name && ids(x.0, name) >= 0 :: ids(x.0, name)
  }

  /** An attribute without a namespace has no resource, yet it reads back the least of these ids,
      or 0 if there is none: so it borrows a resource exactly when some attribute of the name has
      an id and none has the id 0. */
  lemma {:induction false} UnqualifiedBorrowsId(items: seq<Item>, ids: Ids, e: Element, a: Attr)
    requires ProperItems(items, ids, DocTexts(e)) && ItemNames(items) == DocNames(e) && a.ns == [] && a.name != []
    ensures IdsOfName(e, ids, a.name) == {} ==> ResourceOf(items, a) == 0
    ensures IdsOfName(e, ids, a.name) != {} ==>
      ResourceOf(items, a) in IdsOfName(e, ids, a.name) && forall n :: n in IdsOfName(e, ids, a.name) ==> ResourceOf(items, a) <= n
    ensures ResourceOf(items, a) > 0 <==> IdsOfName(e, ids, a.name) != {} && 0 !in IdsOfName(e, ids, a.name)
  {
    hide DocTexts, DocNames;
    var r := Index(items, Some(a.ns), a.name);
    forall n | n in IdsOfName(e, ids, a.name)
      ensures 0 <= r < |items| && 0 <= items[r].id <= n
    {
      LeastFirst(items, ids, e, a, r, n);
    }
    if 0 <= r < |items| && items[r].id >= 0 {
      assert items[r] in items && (items[r].ns.value, a.name) in ItemNames(items);
      assert items[r].id in IdsOfName(e, ids, a.name);
    }
  }

  lemma {:induction false} LeastFirst(items: seq<Item>, ids: Ids, e: Element, a: Attr, r: int, n: int)
    requires ProperItems(items, ids, DocTexts(e)) && ItemNames(items) == DocNames(e) && a.ns == [] && a.name != []
    requires r == Index(items, Some(a.ns), a.name) && n in IdsOfName(e, ids, a.name)
    ensures 0 <= r < |items| && 0 <= items[r].id <= n
  {
    hide DocTexts, DocNames;
    var x :| x in DocNames(e) && x.1 == a.name && n == ids(x.0, a.name) >= 0;
    var i :| i in items && i.ns.Some? && x == (i.ns.value, i.text);
    assert Answers(i, Some(a.ns), a.name);
    var k :| 0 <= k < |items| && items[k] == i;
    assert r <= k && Key(items[r]) <= Key(items[k]);
    assert items[r] in items;
  }

  predicate IsNamed(a: Attr, ns: Str, name: Str) { a.ns == ns && a.name == name }

  lemma {:induction false} LastAtNamed(attrs: seq<Attr>, ns: Str, name: Str)
    ensures LastNamed(attrs, ns, name, LastAt(attrs, ns, name))
    ensures LastAt(attrs, ns, name) == -1 <==> forall a :: a in attrs ==> !IsNamed(a, ns, name)
  {
    if attrs != [] {
      var n := |attrs| - 1;
      LastAtNamed(attrs[..n], ns, name);
      assert attrs == attrs[..n] + [attrs[n]];
      assert attrs[n] in attrs;
    }
  }

  /** The reported positions of the id, class and style attributes are right exactly when there is
      no such attribute: one at position 0 is lost, and any other is taken for the one before it. */
  lemma {:induction false} SpecialExact(attrs: seq<Attr>) returns (right: Special)
    ensures LastNamed(attrs, ANDROID, Text("id"), right.id)
    ensures LastNamed(attrs, [], Text("class"), right.clazz) && LastNamed(attrs, [], Text("style"), right.style)
    ensures ExpectSpecial(attrs) == right <==> forall a :: a in attrs ==>
      !IsNamed(a, ANDROID, Text("id")) && !IsNamed(a, [], Text("class")) && !IsNamed(a, [], Text("style"))
    ensures right.id >= 0 ==> ExpectSpecial(attrs).id == right.id - 1
    ensures right.clazz >= 0 ==> ExpectSpecial(attrs).clazz == right.clazz - 1
    ensures right.style >= 0 ==> ExpectSpecial(attrs).style == right.style - 1
  {
    hide Text, ANDROID, LastNamed, LastAt;
    LastAtNamed(attrs, ANDROID, Text("id"));
    LastAtNamed(attrs, [], Text("class"));
    LastAtNamed(attrs, [], Text("style"));
    right := Special(LastAt(attrs, ANDROID, Text("id")), LastAt(attrs, [], Text("class")), LastAt(attrs, [], Text("style")));
  }

  /** An element whose attribute x is taken for its id. */
  lemma {:induction false} MistakenId(items: seq<Item>)
    ensures var x, id := Attr([], Text("x"), [], 0x10, 0), Attr(ANDROID, Text("id"), [], 0x10, 0);
      ExpectStart(items, Element(1, [], Text("a"), [], [x, id], []), []).special == Special(0, -1, -1)
  {
    var x, id := Attr([], Text("x"), [], 0x10, 0), Attr(ANDROID, Text("id"), [], 0x10, 0);
    assert Text("x")[0] == 'x' as int && Text("class")[0] == 'c' as int && Text("style")[0] == 's' as int && |ANDROID| > 0;
    hide Text, ANDROID, ExpectAttrs, ExpectScope, LastPrefix, LastAt;
    LastAtIs([x, id], ANDROID, Text("id"), 1);
    LastAtIs([x, id], [], Text("class"), -1);
    LastAtIs([x, id], [], Text("style"), -1);
  }

  /** Such a document: `id` once with the Android namespace and once without. */
  lemma {:induction false} BorrowingDocument(items: seq<Item>, ids: Ids)
    requires ids(ANDROID, Text("id")) == 0x0101_00D0 && ids([], Text("id")) == -1
    ensures var plain := Attr([], Text("id"), [], 0x10, 0);
      var e := Element(1, [], Text("a"), [], [Attr(ANDROID, Text("id"), [], 0x10, 0), plain], []);
      ProperItems(items, ids, DocTexts(e)) && ItemNames(items) == DocNames(e) ==> ResourceOf(items, plain) == 0x0101_00D0
  {
    var id := Text("id");
    var named, plain := Attr(ANDROID, id, [], 0x10, 0), Attr([], id, [], 0x10, 0);
    var e := Element(1, [], Text("a"), [], [named, plain], []);
    hide ANDROID, Text, ResourceOf, ItemNames;
    assert [named, plain][..1] == [named] && [named][..0] == [];
    assert OwnNames([named, plain]) == OwnNames([named]) + {([], id)} && OwnNames([named]) == OwnNames([]) + {(ANDROID, id)};
    assert DocNames(e) == {(ANDROID, id), ([], id)};
    if ProperItems(items, ids, DocTexts(e)) && ItemNames(items) == DocNames(e) {
      UnqualifiedBorrowsId(items, ids, e, plain);
      hide DocNames;
      assert (ANDROID, id) in DocNames(e);
      assert IdsOfName(e, ids, id) == {0x0101_00D0};
    }
  }
}
