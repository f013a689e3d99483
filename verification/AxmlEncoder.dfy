/** The binary XML encoder: the chunk tree, its sizes, and the ints it writes. */
module AxmlEncoder {
  import opened AxmlIo
  import opened AxmlPool
  import opened AxmlStrings

  const START_NAMESPACE: Unit := 0x0100
  const END_NAMESPACE: Unit := 0x0101
  const START_ELEMENT: Unit := 0x0102
  const END_ELEMENT: Unit := 0x0103
  const NODE_HEADER: Unit := 0x10
  const TYPE_STRING: Byte := 3
  const NONE: Word := 0xFFFF_FFFF       // -1

  datatype Decl = Decl(prefix: Str, uri: Str)

  /** An attribute with the type and data that evaluate found for its raw value; for a string the
      data is looked up when it is written. */
  datatype Attr = Attr(ns: Str, name: Str, raw: Str, kind: Byte, data: Word)

  datatype Element = Element(line: Word, ns: Str, name: Str, declared: seq<Decl>, attrs: seq<Attr>,
                             children: seq<Element>)

  // ----- sizes -----

  function StartSize(e: Element): nat { 36 + 20 * |e.attrs| }

  /** What TagChunk.preWrite sums up. */
  function TagSize(e: Element): nat
    decreases e
  {
    0x18 * |e.declared| + 0x18 * |e.declared| + StartSize(e) + 24 + TagSizes(e.children)
  }

  function TagSizes(es: seq<Element>): nat
    decreases es
  {
    if es == [] then 0 else TagSizes(es[..|es| - 1]) + TagSize(es[|es| - 1])
  }

  // ----- the ints -----

  function IndexWord(items: seq<Item>, ns: Option<Str>, text: Str): Word {
    var r := Index(items, ns, text);
    if 0 <= r <= MAX_INT then r else NONE
  }

  function DeclWords(kind: Unit, items: seq<Item>, d: Decl): seq<Word> {
    [Halves(kind, NODE_HEADER), 0x18, 1, NONE, IndexWord(items, None, d.prefix), IndexWord(items, None, d.uri)]
  }

  function AllDeclWords(kind: Unit, items: seq<Item>, ds: seq<Decl>): (r: seq<Word>)
    ensures |r| == 6 * |ds|
  {
    if ds == [] then [] else AllDeclWords(kind, items, ds[..|ds| - 1]) + DeclWords(kind, items, ds[|ds| - 1])
  }

  /** A string attribute refers to its raw value twice. */
  function AttrWords(items: seq<Item>, a: Attr): seq<Word> {
    [IndexWord(items, None, a.ns), IndexWord(items, Some(a.ns), a.name),
     if a.kind == TYPE_STRING then IndexWord(items, None, a.raw) else NONE,
     8 + 0x1_0000 * 0 + 0x100_0000 * a.kind,
     if a.kind == TYPE_STRING then IndexWord(items, None, a.raw) else a.data]
  }

  function AllAttrWords(items: seq<Item>, attrs: seq<Attr>): (r: seq<Word>)
    ensures |r| == 5 * |attrs|
  {
    if attrs == [] then [] else AllAttrWords(items, attrs[..|attrs| - 1]) + AttrWords(items, attrs[|attrs| - 1])
  }

  function Text(s: string): Str { seq(|s|, i requires 0 <= i < |s| => s[i] as int % 0x1_0000) }

  const ANDROID := Text("http://schemas.android.com/apk/res/android")

  /** idIndex, styleIndex and classIndex, as the constructor's loop over the attributes leaves them. */
  function Marks(attrs: seq<Attr>): (Unit, Unit, Unit)
    requires |attrs| <= 0x7FFF
  {
    if attrs == [] then (0, 0, 0) else
      var (id, style, clazz) := Marks(attrs[..|attrs| - 1]);
      var i, a := |attrs| - 1, attrs[|attrs| - 1];
      if a.name == Text("id") && a.ns == ANDROID then (i, style, clazz)
      else if a.ns == [] && a.name == Text("style") then (id, i, clazz)
      else if a.ns == [] && a.name == Text("class") then (id, style, i)
      else (id, style, clazz)
  }

  /** Attribute i is the last one with this namespace and name; for -1 there is none. */
  ghost predicate LastNamed(attrs: seq<Attr>, ns: Str, name: Str, i: int) {
    && -1 <= i < |attrs|
    && (i >= 0 ==> attrs[i].ns == ns && attrs[i].name == name)
    && forall j :: i < j < |attrs| ==> !(attrs[j].ns == ns && attrs[j].name == name)
  }

  /** The marks are the last attributes named android:id, class and style, and 0 where there are none. */
  lemma {:induction false} MarksAreLast(attrs: seq<Attr>) returns (id: int, clazz: int, style: int)
    requires |attrs| <= 0x7FFF
    ensures LastNamed(attrs, ANDROID, Text("id"), id)
    ensures LastNamed(attrs, [], Text("class"), clazz) && LastNamed(attrs, [], Text("style"), style)
    ensures Marks(attrs) == (if id < 0 then 0 else id, if style < 0 then 0 else style, if clazz < 0 then 0 else clazz)
  {
    id, clazz, style := -1, -1, -1;
    if attrs != [] {
      var n := |attrs| - 1;
      id, clazz, style := MarksAreLast(attrs[..n]);
      DistinctNames();
      hide Text, ANDROID;
      var a := attrs[n];
      if a.ns == ANDROID && a.name == Text("id") {
        id := n;
      } else if a.ns == [] && a.name == Text("style") {
        style := n;
      } else if a.ns == [] && a.name == Text("class") {
        clazz := n;
      }
    }
  }

  lemma DistinctNames()
    ensures ANDROID != [] && Text("style") != Text("class")
  {
    assert |ANDROID| > 0;
    assert Text("style")[0] == 's' as int && Text("class")[0] == 'c' as int;
  }

  /** The loop over attributes counts in a short. */
  predicate Countable(e: Element)
    decreases e
  {
    |e.attrs| <= 0x7FFF && forall c :: c in e.children ==> Countable(c)
  }

  function StartWords(items: seq<Item>, e: Element): (r: seq<Word>)
    requires |e.attrs| <= 0x7FFF
    ensures 4 * |r| == StartSize(e)
  {
    var (id, style, clazz) := Marks(e.attrs);
    [Halves(START_ELEMENT, NODE_HEADER), StartSize(e), e.line, NONE, IndexWord(items, None, e.ns), IndexWord(items, None, e.name),
     Halves(20, 20), Halves(|e.attrs|, id), Halves(clazz, style)] + AllAttrWords(items, e.attrs)
  }

  function EndWords(items: seq<Item>, e: Element): seq<Word> {
    [Halves(END_ELEMENT, NODE_HEADER), 24, e.line, NONE, IndexWord(items, None, e.ns), IndexWord(items, None, e.name)]
  }

  /** Everything a TagChunk writes, and the size law: four bytes an int, exactly what calc summed
      up before. */
  function TagWords(items: seq<Item>, e: Element): (r: seq<Word>)
    requires Countable(e)
    ensures 4 * |r| == TagSize(e)
    decreases e
  {
    AllDeclWords(START_NAMESPACE, items, e.declared) + StartWords(items, e) + AllTagWords(items, e.children)
      + EndWords(items, e) + AllDeclWords(END_NAMESPACE, items, e.declared)
  }

  function AllTagWords(items: seq<Item>, es: seq<Element>): (r: seq<Word>)
    requires forall e :: e in es ==> Countable(e)
    ensures 4 * |r| == TagSizes(es)
    decreases es
  {
    if es == [] then [] else AllTagWords(items, es[..|es| - 1]) + TagWords(items, es[|es| - 1])
  }

  function Texts(items: seq<Item>): (r: seq<Str>)
    ensures |r| == |items|
  {
    seq(|items|, i requires 0 <= i < |items| => items[i].text)
  }

  function ResourceMapSize(items: seq<Item>): nat { |IdPrefix(items)| * 4 + 8 }

  function ResourceMapWords(items: seq<Item>): (r: seq<Word>)
    requires ResourceMapSize(items) <= MAX_INT
    requires forall i :: i in items ==> i.id <= MAX_INT
    ensures 4 * |r| == ResourceMapSize(items)
  {
    [Halves(0x0180, 8), ResourceMapSize(items)] + seq(|IdPrefix(items)|, i requires 0 <= i < |IdPrefix(items)| =>
      assert items[i] in items; IdPrefix(items)[i])
  }

  /** XmlChunk.preWrite. */
  function FileSize(items: seq<Item>, e: Element): nat { 8 + TagSize(e) + PoolSize(Texts(items)) + ResourceMapSize(items) }

  function FileHeader(size: Word): seq<Word> { [Halves(0x0003, 8), size] }

  /** The whole file, whose header announces its length in bytes. */
  function FileWords(items: seq<Item>, e: Element): (r: seq<Word>)
    requires Countable(e) && FileSize(items, e) <= MAX_INT && forall i :: i in items ==> i.id <= MAX_INT
    ensures 4 * |r| == FileSize(items, e)
  {
    FileHeader(FileSize(items, e)) + PoolWords(Texts(items)) + ResourceMapWords(items) + TagWords(items, e)
  }

  // ----- the lookups made while writing -----

  predicate AttrFound(items: seq<Item>, a: Attr) {
    && Found(items, None, a.ns) && Found(items, Some(a.ns), a.name)
    && (a.kind == TYPE_STRING ==> Found(items, None, a.raw))
  }

  predicate AllFound(items: seq<Item>, e: Element)
    decreases e
  {
    && Found(items, None, e.ns) && Found(items, None, e.name)
    && (forall d :: d in e.declared ==> Found(items, None, d.prefix) && Found(items, None, d.uri))
    && (forall a :: a in e.attrs ==> AttrFound(items, a))
    && forall c :: c in e.children ==> AllFound(items, c)
  }

  // ----- building the pool -----

  function NameTexts(attrs: seq<Attr>): set<Str> {
    if attrs == [] then {} else NameTexts(attrs[..|attrs| - 1]) + {attrs[|attrs| - 1].name}
  }

  function DeclTexts(ds: seq<Decl>): set<Str> {
    if ds == [] then {} else DeclTexts(ds[..|ds| - 1]) + {ds[|ds| - 1].prefix} + {ds[|ds| - 1].uri}
  }

  /** The strings that the constructors add for this element alone, and with all below it. */
  function OwnTexts(e: Element): set<Str> { {e.name} + NameTexts(e.attrs) + DeclTexts(e.declared) }

  function TagTexts(e: Element): set<Str>
    decreases e
  {
    OwnTexts(e) + AllTagTexts(e.children)
  }

  function AllTagTexts(es: seq<Element>): set<Str>
    decreases es
  {
    if es == [] then {} else AllTagTexts(es[..|es| - 1]) + TagTexts(es[|es| - 1])
  }

  /** The strings that evaluate adds. */
  function OwnValues(attrs: seq<Attr>): set<Str> {
    if attrs == [] then {}
    else
      var a := attrs[|attrs| - 1];
      OwnValues(attrs[..|attrs| - 1]) + if a.kind == TYPE_STRING then {a.raw} else {}
  }

  function ValueTexts(e: Element): set<Str>
    decreases e
  {
    OwnValues(e.attrs) + AllValueTexts(e.children)
  }

  function AllValueTexts(es: seq<Element>): set<Str>
    decreases es
  {
    if es == [] then {} else AllValueTexts(es[..|es| - 1]) + ValueTexts(es[|es| - 1])
  }

  /** The namespaces and names of the attributes of e and of all below it. */
  function OwnNames(attrs: seq<Attr>): set<(Str, Str)> {
    if attrs == [] then {} else OwnNames(attrs[..|attrs| - 1]) + {(attrs[|attrs| - 1].ns, attrs[|attrs| - 1].name)}
  }

  function DocNames(e: Element): set<(Str, Str)>
    decreases e
  {
    OwnNames(e.attrs) + AllDocNames(e.children)
  }

  function AllDocNames(es: seq<Element>): set<(Str, Str)>
    decreases es
  {
    if es == [] then {} else AllDocNames(es[..|es| - 1]) + DocNames(es[|es| - 1])
  }

  lemma {:induction false} ChildTexts(es: seq<Element>, c: Element)
    requires c in es
    ensures TagTexts(c) <= AllTagTexts(es) && ValueTexts(c) <= AllValueTexts(es)
  {
    if c != es[|es| - 1] {
      ChildTexts(es[..|es| - 1], c);
    }
  }

  lemma {:induction false} DeclTextsHas(ds: seq<Decl>, d: Decl)
    requires d in ds
    ensures d.prefix in DeclTexts(ds) && d.uri in DeclTexts(ds)
  {
    if d != ds[|ds| - 1] {
      DeclTextsHas(ds[..|ds| - 1], d);
    }
  }

  lemma {:induction false} OwnValuesHas(attrs: seq<Attr>, a: Attr)
    requires a in attrs && a.kind == TYPE_STRING
    ensures a.raw in OwnValues(attrs)
  {
    if a != attrs[|attrs| - 1] {
      OwnValuesHas(attrs[..|attrs| - 1], a);
    }
  }

  ghost predicate NamesHeld(lists: map<Str, seq<Item>>, attrs: seq<Attr>) {
    forall a :: a in attrs ==> Holds(lists, Some(a.ns), a.name)
  }

  ghost predicate Registered(lists: map<Str, seq<Item>>, e: Element)
    decreases e
  {
    NamesHeld(lists, e.attrs) && forall c :: c in e.children ==> Registered(lists, c)
  }

  lemma {:induction false} NamesStay(before: map<Str, seq<Item>>, after: map<Str, seq<Item>>,
      texts: set<Str>, names: set<(Str, Str)>, attrs: seq<Attr>)
    requires NamesHeld(before, attrs) && Extends(before, after, texts, names)
    ensures NamesHeld(after, attrs)
  {
    hide Names, Holds;
  }

  lemma {:induction false} RegisteredStays(before: map<Str, seq<Item>>, after: map<Str, seq<Item>>,
      texts: set<Str>, names: set<(Str, Str)>, e: Element)
    requires Registered(before, e) && Extends(before, after, texts, names)
    ensures Registered(after, e)
    decreases e
  {
    hide Extends, NamesHeld;
    NamesStay(before, after, texts, names, e.attrs);
    forall c | c in e.children ensures Registered(after, c) {
      RegisteredStays(before, after, texts, names, c);
    }
  }

  /** The constructors of StartTagChunk and StartNameSpaceChunk for one element. */
  method RegisterOwn(pool: StringPool, e: Element)
    requires pool.Valid()
    modifies pool`lists
    ensures pool.Valid() && NamesHeld(pool.lists, e.attrs)
    ensures Extends(old(pool.lists), pool.lists, OwnTexts(e), OwnNames(e.attrs))
  {
    hide Extends, NamesHeld, NameTexts, DeclTexts, OwnNames;
    ghost var l0 := pool.lists;
    pool.AddText(e.name);
    ghost var l1 := pool.lists;
    RegisterAttrs(pool, e.attrs);
    ghost var l2 := pool.lists;
    RegisterDecls(pool, e.declared);
    NamesStay(l2, pool.lists, DeclTexts(e.declared), {}, e.attrs);
    ExtendsTwice(l0, l1, l2, {e.name}, {}, NameTexts(e.attrs), OwnNames(e.attrs));
    assert {} + OwnNames(e.attrs) == OwnNames(e.attrs) + {} == OwnNames(e.attrs);
    ExtendsTwice(l0, l2, pool.lists, {e.name} + NameTexts(e.attrs), OwnNames(e.attrs), DeclTexts(e.declared), {});
  }

  method RegisterAttrs(pool: StringPool, attrs: seq<Attr>)
    requires pool.Valid()
    modifies pool`lists
    ensures pool.Valid() && NamesHeld(pool.lists, attrs)
    ensures Extends(old(pool.lists), pool.lists, NameTexts(attrs), OwnNames(attrs))
  {
    ExtendsNothing(pool.lists);
    hide Extends;
    for i := 0 to |attrs|
      invariant pool.Valid() && NamesHeld(pool.lists, attrs[..i])
      invariant Extends(old(pool.lists), pool.lists, NameTexts(attrs[..i]), OwnNames(attrs[..i]))
    {
      ghost var before := pool.lists;
      RegisterAttr(pool, attrs[i]);
      OneAttrMore(old(pool.lists), before, pool.lists, attrs, i);
    }
    assert attrs[..|attrs|] == attrs;
  }

  method RegisterAttr(pool: StringPool, a: Attr)
    requires pool.Valid()
    modifies pool`lists
    ensures pool.Valid() && Holds(pool.lists, Some(a.ns), a.name)
    ensures Extends(old(pool.lists), pool.lists, {a.name}, {(a.ns, a.name)})
  {
    pool.AddQualified(Some(a.ns), a.name);
  }

  lemma {:induction false} OneAttrMore(l0: map<Str, seq<Item>>, l1: map<Str, seq<Item>>, l2: map<Str, seq<Item>>, attrs: seq<Attr>, i: nat)
    requires i < |attrs| && NamesHeld(l1, attrs[..i]) && Extends(l0, l1, NameTexts(attrs[..i]), OwnNames(attrs[..i]))
    requires Extends(l1, l2, {attrs[i].name}, {(attrs[i].ns, attrs[i].name)}) && Holds(l2, Some(attrs[i].ns), attrs[i].name)
    ensures NamesHeld(l2, attrs[..i + 1]) && Extends(l0, l2, NameTexts(attrs[..i + 1]), OwnNames(attrs[..i + 1]))
  {
    hide Extends, Holds;
    var a := attrs[i];
    assert attrs[..i + 1][..i] == attrs[..i] && attrs[..i + 1] == attrs[..i] + [a];
    NamesStay(l1, l2, {a.name}, {(a.ns, a.name)}, attrs[..i]);
    ExtendsTwice(l0, l1, l2, NameTexts(attrs[..i]), OwnNames(attrs[..i]), {a.name}, {(a.ns, a.name)});
  }

  method RegisterDecls(pool: StringPool, ds: seq<Decl>)
    requires pool.Valid()
    modifies pool`lists
    ensures pool.Valid() && Extends(old(pool.lists), pool.lists, DeclTexts(ds), {})
  {
    ExtendsNothing(pool.lists);
    hide Extends;
    for i := 0 to |ds|
      invariant pool.Valid() && Extends(old(pool.lists), pool.lists, DeclTexts(ds[..i]), {})
    {
      ghost var before := pool.lists;
      RegisterDecl(pool, ds[i]);
      ExtendsTexts(old(pool.lists), before, pool.lists, DeclTexts(ds[..i]), {ds[i].prefix} + {ds[i].uri});
      assert ds[..i + 1][..i] == ds[..i];
    }
    assert ds[..|ds|] == ds;
  }

  method RegisterDecl(pool: StringPool, d: Decl)
    requires pool.Valid()
    modifies pool`lists
    ensures pool.Valid() && Extends(old(pool.lists), pool.lists, {d.prefix} + {d.uri}, {})
  {
    hide Extends;
    pool.AddQualified(None, d.prefix);
    ghost var before := pool.lists;
    pool.AddQualified(None, d.uri);
    ExtendsTexts(old(pool.lists), before, pool.lists, {d.prefix}, {d.uri});
  }

  /** The constructors of the whole tree, in document order. */
  method Register(pool: StringPool, e: Element)
    requires pool.Valid()
    modifies pool`lists
    ensures pool.Valid() && Registered(pool.lists, e)
    ensures Extends(old(pool.lists), pool.lists, TagTexts(e), DocNames(e))
    decreases e
  {
    hide Extends, OwnTexts, OwnNames, NamesHeld;
    RegisterOwn(pool, e);
    ghost var own := pool.lists;
    RegisterAll(pool, e.children);
    NamesStay(own, pool.lists, AllTagTexts(e.children), AllDocNames(e.children), e.attrs);
    ExtendsTwice(old(pool.lists), own, pool.lists, OwnTexts(e), OwnNames(e.attrs), AllTagTexts(e.children), AllDocNames(e.children));
  }

  method RegisterAll(pool: StringPool, es: seq<Element>)
    requires pool.Valid()
    modifies pool`lists
    ensures pool.Valid() && forall c :: c in es ==> Registered(pool.lists, c)
    ensures Extends(old(pool.lists), pool.lists, AllTagTexts(es), AllDocNames(es))
    decreases es
  {
    ExtendsNothing(pool.lists);
    hide Extends, Registered;
    for i := 0 to |es|
      invariant pool.Valid() && forall c :: c in es[..i] ==> Registered(pool.lists, c)
      invariant Extends(old(pool.lists), pool.lists, AllTagTexts(es[..i]), AllDocNames(es[..i]))
    {
      ghost var before := pool.lists;
      Register(pool, es[i]);
      OneChildMore(old(pool.lists), before, pool.lists, es, i);
    }
    assert es[..|es|] == es;
  }

  lemma {:induction false} OneChildMore(l0: map<Str, seq<Item>>, l1: map<Str, seq<Item>>, l2: map<Str, seq<Item>>, es: seq<Element>, i: nat)
    requires i < |es| && (forall c :: c in es[..i] ==> Registered(l1, c)) && Registered(l2, es[i])
    requires Extends(l0, l1, AllTagTexts(es[..i]), AllDocNames(es[..i])) && Extends(l1, l2, TagTexts(es[i]), DocNames(es[i]))
    ensures forall c :: c in es[..i + 1] ==> Registered(l2, c)
    ensures Extends(l0, l2, AllTagTexts(es[..i + 1]), AllDocNames(es[..i + 1]))
  {
    hide Extends, Registered, TagTexts, DocNames;
    assert es[..i + 1][..i] == es[..i] && es[..i + 1] == es[..i] + [es[i]];
    forall c | c in es[..i] ensures Registered(l2, c) {
      RegisteredStays(l1, l2, TagTexts(es[i]), DocNames(es[i]), c);
    }
    ExtendsTwice(l0, l1, l2, AllTagTexts(es[..i]), AllDocNames(es[..i]), TagTexts(es[i]), DocNames(es[i]));
  }

  method EvaluateOwn(pool: StringPool, e: Element)
    requires pool.Valid()
    modifies pool`lists
    ensures pool.Valid() && Extends(old(pool.lists), pool.lists, OwnValues(e.attrs), {})
  {
    ExtendsNothing(pool.lists);
    hide Extends;
    for i := 0 to |e.attrs|
      invariant pool.Valid() && Extends(old(pool.lists), pool.lists, OwnValues(e.attrs[..i]), {})
    {
      assert e.attrs[..i + 1][..i] == e.attrs[..i];
      if e.attrs[i].kind == TYPE_STRING {
        ghost var before := pool.lists;
        pool.AddText(e.attrs[i].raw);
        ExtendsTexts(old(pool.lists), before, pool.lists, OwnValues(e.attrs[..i]), {e.attrs[i].raw});
      } else {
        assert OwnValues(e.attrs[..i + 1]) == OwnValues(e.attrs[..i]);
      }
    }
    assert e.attrs[..|e.attrs|] == e.attrs;
  }

  /** The preWrite calls that reach ValueChunk.evaluate. */
  method Evaluate(pool: StringPool, e: Element)
    requires pool.Valid()
    modifies pool`lists
    ensures pool.Valid() && Extends(old(pool.lists), pool.lists, ValueTexts(e), {})
    decreases e
  {
    hide Extends, OwnValues;
    EvaluateOwn(pool, e);
    ghost var own := pool.lists;
    EvaluateAll(pool, e.children);
    ExtendsTexts(old(pool.lists), own, pool.lists, OwnValues(e.attrs), AllValueTexts(e.children));
    assert OwnValues(e.attrs) + AllValueTexts(e.children) == ValueTexts(e);
  }

  method EvaluateAll(pool: StringPool, es: seq<Element>)
    requires pool.Valid()
    modifies pool`lists
    ensures pool.Valid() && Extends(old(pool.lists), pool.lists, AllValueTexts(es), {})
    decreases es
  {
    ExtendsNothing(pool.lists);
    hide Extends;
    for i := 0 to |es|
      invariant pool.Valid() && Extends(old(pool.lists), pool.lists, AllValueTexts(es[..i]), {})
    {
      ghost var before := pool.lists;
      Evaluate(pool, es[i]);
      ExtendsTexts(old(pool.lists), before, pool.lists, AllValueTexts(es[..i]), ValueTexts(es[i]));
      assert es[..i + 1][..i] == es[..i];
    }
    assert es[..|es|] == es;
  }

  /** Every namespace used in e is empty or one of these strings. */
  predicate NamespacesIn(texts: set<Str>, e: Element)
    decreases e
  {
    && (e.ns == [] || e.ns in texts)
    && (forall a :: a in e.attrs ==> a.ns == [] || a.ns in texts)
    && forall c :: c in e.children ==> NamespacesIn(texts, c)
  }

  /** Every namespace used in e is declared by e or an element around it. */
  predicate NamespacesDeclared(scope: set<Str>, e: Element)
    decreases e
  {
    var inner := scope + set d | d in e.declared :: d.uri;
    && (e.ns == [] || e.ns in inner)
    && (forall a :: a in e.attrs ==> a.ns == [] || a.ns in inner)
    && forall c :: c in e.children ==> NamespacesDeclared(inner, c)
  }

  lemma {:induction false} DeclaredIsIn(scope: set<Str>, texts: set<Str>, e: Element)
    requires NamespacesDeclared(scope, e) && scope <= texts && TagTexts(e) <= texts
    ensures NamespacesIn(texts, e)
    decreases e
  {
    var inner := scope + set d | d in e.declared :: d.uri;
    forall c | c in e.children ensures NamespacesIn(texts, c) {
      ChildTexts(e.children, c);
      forall d | d in e.declared ensures d.uri in texts {
        DeclTextsHas(e.declared, d);
      }
      DeclaredIsIn(inner, texts, c);
    }
    forall d | d in e.declared ensures d.uri in texts {
      DeclTextsHas(e.declared, d);
    }
  }

  /** Once the pool is frozen, the lookups made while writing all succeed exactly when every
      namespace that the document uses is one of its strings. */
  lemma {:induction false} LookupsSucceed(lists: map<Str, seq<Item>>, items: seq<Item>, e: Element)
    requires Registered(lists, e) && TagTexts(e) + ValueTexts(e) <= lists.Keys
    requires forall t :: t in lists ==> lists[t] != []
    requires forall ns, text :: Found(items, ns, text) <==> text == [] || Holds(lists, ns, text)
    ensures AllFound(items, e) <==> NamespacesIn(lists.Keys, e)
    decreases e
  {
    OwnLookups(lists, items, e);
    hide Holds, Found, OwnTexts, OwnValues;
    forall c | c in e.children ensures AllFound(items, c) <==> NamespacesIn(lists.Keys, c) {
      ChildTexts(e.children, c);
      LookupsSucceed(lists, items, c);
    }
  }

  lemma {:induction false} OwnLookups(lists: map<Str, seq<Item>>, items: seq<Item>, e: Element)
    requires NamesHeld(lists, e.attrs) && OwnTexts(e) + OwnValues(e.attrs) <= lists.Keys
    requires forall t :: t in lists ==> lists[t] != []
    requires forall ns, text :: Found(items, ns, text) <==> text == [] || Holds(lists, ns, text)
    ensures forall t :: Found(items, None, t) <==> t == [] || t in lists
    ensures Found(items, None, e.name)
    ensures forall d :: d in e.declared ==> Found(items, None, d.prefix) && Found(items, None, d.uri)
    ensures forall a :: a in e.attrs ==> (AttrFound(items, a) <==> a.ns == [] || a.ns in lists)
  {
    hide Found;
    forall t ensures Found(items, None, t) <==> t == [] || t in lists {
      if t in lists {
        assert lists[t][0] in lists[t];
      }
    }
    forall d | d in e.declared ensures d.prefix in lists && d.uri in lists {
      DeclTextsHas(e.declared, d);
    }
    forall a | a in e.attrs && a.kind == TYPE_STRING ensures a.raw in lists {
      OwnValuesHas(e.attrs, a);
    }
    assert e.name in OwnTexts(e);
  }
}
