/** The binary XML pull parser: doNext as a state machine over the ints of the file. */
module AxmlParser {
  import opened AxmlIo
  import opened AxmlStrings
  import opened NamespaceStacks

  const CHUNK_AXML_FILE: Word := 0x0008_0003
  const CHUNK_RESOURCEIDS: Word := 0x0008_0180
  const CHUNK_START_NAMESPACE: Word := 0x0010_0100
  const CHUNK_END_NAMESPACE: Word := 0x0010_0101
  const CHUNK_START_TAG: Word := 0x0010_0102
  const CHUNK_END_TAG: Word := 0x0010_0103
  const CHUNK_TEXT: Word := 0x0010_0104

  datatype EventType = NoEvent | StartDocument | EndDocument | StartTag | EndTag | TextEvent

  /** What doNext depends on: the next int, the resource ids, the namespace frames, a frame still
      to be closed, and the event before. */
  datatype Core = Core(pos: nat, ids: seq<Word>, frames: seq<Frame>, decrease: bool, event: EventType)

  /** Which attributes are the id, the class and the style, -1 for none. */
  datatype Special = Special(id: int, clazz: int, style: int)

  const NoSpecial := Special(-1, -1, -1)

  /** From the two ints of a start tag: 0 stands for none. */
  function SpecialOf(count: int, classes: int): Special {
    Special(count / 0x1_0000 - 1, classes % 0x1_0000 - 1, classes / 0x1_0000 - 1)
  }

  /** What doNext fills in for its event; resetEventInfo is NoInfo. */
  datatype Info = Info(line: int, ns: int, name: int, attrs: seq<Word>, special: Special)

  const NoInfo := Info(-1, -1, -1, [], NoSpecial)

  /** The frames once the frame of a finished element is closed. */
  function Settled(decrease: bool, frames: seq<Frame>): seq<Frame> { if decrease then Shallowed(frames) else frames }

  /** Every fourth cell of five keeps its top byte only. */
  function TypesCut(raw: seq<Word>): (r: seq<Word>)
    ensures |r| == |raw|
  {
    seq(|raw|, i requires 0 <= i < |raw| => if i % 5 == 3 then raw[i] / 0x100_0000 else raw[i])
  }

  /** A start tag whose type has been read; q is the int after it. */
  function StartBody(ws: seq<Word>, c: Core, q: nat): Option<(Core, Info)> {
    if q + 8 > |ws| then None
    else
      var n := ws[q + 6] % 0x1_0000;
      if q + 8 + 5 * n > |ws| then None
      else Some((Core(q + 8 + 5 * n, c.ids, Deepened(c.frames), false, StartTag),
                 Info(Signed(ws[q + 1]), Signed(ws[q + 3]), Signed(ws[q + 4]), TypesCut(ws[q + 8..q + 8 + 5 * n]),
                      SpecialOf(ws[q + 6], ws[q + 7]))))
  }

  /** doNext after the delayed initialization; none is an exception. */
  function Next(ws: seq<Word>, c: Core): Option<(Core, Info)>
    decreases |ws| - c.pos, 2
  {
    Turn(ws, c.(frames := Settled(c.decrease, c.frames), decrease := false))
  }

  /** One turn of its loop, once a finished element's frame is closed, and the turns after it. */
  function Turn(ws: seq<Word>, c: Core): Option<(Core, Info)>
    decreases |ws| - c.pos, 1
  {
    if c.event == EndTag && |c.frames| == 1 && Top(c.frames) == [] then Some((c.(event := EndDocument), NoInfo))
    else if c.event == StartDocument then StartBody(ws, c, c.pos)
    else if c.pos >= |ws| then None
    else if ws[c.pos] == CHUNK_RESOURCEIDS then
      if c.pos + 2 > |ws| || Signed(ws[c.pos + 1]) < 8 || ws[c.pos + 1] % 4 != 0 then None
      else
        var n := ws[c.pos + 1] / 4 - 2;
        if c.pos + 2 + n > |ws| then None
        else Next(ws, c.(pos := c.pos + 2 + n, ids := ws[c.pos + 2..c.pos + 2 + n]))
    else Chunk(ws, c)
  }

  /** The chunks of the element tree. */
  function Chunk(ws: seq<Word>, c: Core): Option<(Core, Info)>
    requires c.pos < |ws|
    decreases |ws| - c.pos, 0
  {
    var p, kind := c.pos, ws[c.pos];
    if kind < CHUNK_START_NAMESPACE || kind > CHUNK_TEXT then None
    else if kind == CHUNK_START_TAG then
      if c.event == NoEvent then Some((c.(pos := p + 1, event := StartDocument), NoInfo)) else StartBody(ws, c, p + 1)
    else if p + 6 > |ws| then None
    else if kind == CHUNK_START_NAMESPACE then
      Next(ws, c.(pos := p + 6, frames := Pushed(c.frames, (Signed(ws[p + 4]), Signed(ws[p + 5])))))
    else if kind == CHUNK_END_NAMESPACE then Next(ws, c.(pos := p + 6, frames := Popped(c.frames)))
    else if kind == CHUNK_END_TAG then
      Some((c.(pos := p + 6, decrease := true, event := EndTag), Info(Signed(ws[p + 2]), Signed(ws[p + 4]), Signed(ws[p + 5]), [], NoSpecial)))
    else if p + 7 > |ws| then None
    else Some((c.(pos := p + 7, event := TextEvent), Info(Signed(ws[p + 2]), -1, Signed(ws[p + 4]), [], NoSpecial)))
  }

  /** The delayed initialization: file type, string pool, one namespace frame. */
  function Opening(ws: seq<Word>): Option<(Block, Core)> {
    if |ws| < 2 || ws[0] != CHUNK_AXML_FILE then None
    else match BlockAt(ws, 2)
      case None => None
      case Some((b, p)) => Some((b, Core(p, [], [[]], false, NoEvent)))
  }

  ghost predicate Advances(ws: seq<Word>, pos: nat, r: Option<(Core, Info)>) {
    r.Some? ==> r.value.0.event == EndDocument || (r.value.0.event != NoEvent && pos < r.value.0.pos <= |ws|)
  }

  /** An event consumes at least one int, except for the end of the document. */
  lemma {:induction false} NextAdvances(ws: seq<Word>, c: Core)
    ensures Advances(ws, c.pos, Next(ws, c))
    decreases |ws| - c.pos, 1
  {
    var c1 := c.(frames := Settled(c.decrease, c.frames), decrease := false);
    if c.event != StartDocument && c.pos < |ws| {
      if ws[c.pos] == CHUNK_RESOURCEIDS {
        if c.pos + 2 <= |ws| && Signed(ws[c.pos + 1]) >= 8 {
          var n := ws[c.pos + 1] / 4 - 2;
          if c.pos + 2 + n <= |ws| {
            NextAdvances(ws, c1.(pos := c.pos + 2 + n, ids := ws[c.pos + 2..c.pos + 2 + n]));
          }
        }
      } else {
        ChunkAdvances(ws, c1);
      }
    }
    hide Next, Chunk;
  }

  lemma {:induction false} ChunkAdvances(ws: seq<Word>, c: Core)
    requires c.pos < |ws| && c.event != StartDocument
    ensures Advances(ws, c.pos, Chunk(ws, c))
    decreases |ws| - c.pos, 0
  {
    var p := c.pos;
    if p + 6 <= |ws| {
      if ws[p] == CHUNK_START_NAMESPACE {
        NextAdvances(ws, c.(pos := p + 6, frames := Pushed(c.frames, (Signed(ws[p + 4]), Signed(ws[p + 5])))));
      } else if ws[p] == CHUNK_END_NAMESPACE {
        NextAdvances(ws, c.(pos := p + 6, frames := Popped(c.frames)));
      }
    }
    hide Next;
  }

  // ----- what a caller sees -----

  datatype AttrView = AttrView(ns: Lookup, prefix: Lookup, name: Lookup, resource: int, kind: Word, data: Word, value: Lookup)

  datatype Event =
    | DocumentStart
    | DocumentEnd
    | TagStart(line: int, ns: Lookup, prefix: Lookup, name: Lookup, attrs: seq<AttrView>, special: Special, scope: seq<(Lookup, Lookup)>)
    | TagEnd(line: int, ns: Lookup, prefix: Lookup, name: Lookup, scope: seq<(Lookup, Lookup)>)
    | Txt(line: int, text: Lookup)

  /** A getter that answers "" for -1. */
  function StringOrEmpty(b: Block, index: int): Lookup { if index == -1 then Got([]) else StringAt(b, index) }

  const VALUE_STRING: Word := 3

  /** The prefix of the last pair with this uri, or -1. */
  function PrefixOf(ps: seq<Pair>, uri: int): int { NamespaceStacks.Lookup(ps, uri, false) }

  /** The getAttribute getters for attribute i, with these namespaces in scope. */
  function AttrAt(b: Block, ids: seq<Word>, ps: seq<Pair>, attrs: seq<Word>, i: nat): AttrView
    requires 5 * i + 5 <= |attrs|
  {
    var name := Signed(attrs[5 * i + 1]);
    AttrView(StringOrEmpty(b, Signed(attrs[5 * i])), StringOrEmpty(b, PrefixOf(ps, Signed(attrs[5 * i]))), StringOrEmpty(b, name),
             if 0 <= name < |ids| then ids[name] else 0,
             attrs[5 * i + 3], attrs[5 * i + 4],
             if attrs[5 * i + 3] == VALUE_STRING then StringAt(b, Signed(attrs[5 * i + 2])) else Got([]))
  }

  function AttrViews(b: Block, ids: seq<Word>, ps: seq<Pair>, attrs: seq<Word>): seq<AttrView> {
    seq(|attrs| / 5, i requires 0 <= i < |attrs| / 5 => AttrAt(b, ids, ps, attrs, i))
  }

  /** getNamespacePrefix and getNamespaceUri of every namespace in scope. */
  function Scope(b: Block, ps: seq<Pair>): seq<(Lookup, Lookup)> {
    seq(|ps|, i requires 0 <= i < |ps| => (StringAt(b, ps[i].0), StringAt(b, ps[i].1)))
  }

  function View(b: Block, c: Core, info: Info): Event {
    var ps := Pairs(c.frames);
    match c.event
    case StartTag => TagStart(info.line, StringAt(b, info.ns), StringAt(b, PrefixOf(ps, info.ns)), StringAt(b, info.name),
                              AttrViews(b, c.ids, ps, info.attrs), info.special, Scope(b, ps))
    case EndTag => TagEnd(info.line, StringAt(b, info.ns), StringAt(b, PrefixOf(ps, info.ns)), StringAt(b, info.name), Scope(b, ps))
    case TextEvent => Txt(info.line, StringAt(b, info.name))
    case EndDocument => DocumentEnd
    case _ => DocumentStart
  }

  /** Everything the parser reports from state c on, and whether it reaches the end of the document. */
  function Run(b: Block, ws: seq<Word>, c: Core): (seq<Event>, bool)
    decreases |ws| - c.pos
  {
    match Next(ws, c)
    case None => ([], false)
    case Some((c', info)) =>
      NextAdvances(ws, c);
      if c'.event == EndDocument then ([DocumentEnd], true)
      else
        var rest := Run(b, ws, c');
        ([View(b, c', info)] + rest.0, rest.1)
  }

  // ----- the parser object -----

  class Parser {
    const reader: IntReader
    const namespaces: NamespaceStack
    var strings: Option<Block>
    var ids: seq<Word>
    var decrease: bool
    var event: EventType
    var line: int
    var name: int
    var ns: int
    var attributes: seq<Word>
    var idAttribute: int
    var classAttribute: int
    var styleAttribute: int

    ghost predicate Valid()
      reads this, reader, namespaces, namespaces.data
    {
      && reader.Valid() && namespaces.Valid()
      && (strings.None? ==> namespaces.frames == [] && reader.At() == 0 && event == NoEvent && !decrease && ids == [])
    }

    ghost function Now(): Core
      reads this, reader, namespaces
      requires reader.Valid()
    {
      Core(reader.At(), ids, namespaces.frames, decrease, event)
    }

    constructor (stream: seq<Byte>)
      ensures Valid() && strings == None && reader.stream == stream && fresh(reader) && fresh(namespaces) && fresh(namespaces.data)
    {
      reader := new IntReader(stream);
      namespaces := new NamespaceStack();
      strings, ids, decrease, event, attributes := None, [], false, NoEvent, [];
      line, name, ns := -1, -1, -1;
      idAttribute, classAttribute, styleAttribute := -1, -1, -1;
    }

    ghost function InfoNow(): Info
      reads this
    {
      Info(line, ns, name, attributes, Special(idAttribute, classAttribute, styleAttribute))
    }

    method ResetEventInfo()
      modifies this`event, this`line, this`name, this`ns, this`attributes,
               this`idAttribute, this`classAttribute, this`styleAttribute
      ensures event == NoEvent && InfoNow() == NoInfo
    {
      event, line, name, ns, attributes := NoEvent, -1, -1, -1, [];
      idAttribute, classAttribute, styleAttribute := -1, -1, -1;
    }

    /** The delayed initialization. */
    method Initialize() returns (ok: bool)
      requires Valid() && strings.None?
      modifies this`strings, reader, namespaces, namespaces.data
      ensures ok <==> Opening(WordsOf(reader.stream)).Some?
      ensures ok ==> Valid() && strings.Some? && Opening(WordsOf(reader.stream)) == Some((strings.value, Now()))
      ensures ok ==> namespaces.data == old(namespaces.data) || fresh(namespaces.data)
    {
      hide WordsOf, BlockAt;
      var kind;
      ok, kind := reader.ReadInt();
      if !ok || kind != CHUNK_AXML_FILE { return false; }
      ok := reader.SkipInt();
      if !ok { return; }
      var b;
      ok, b := ReadBlock(reader);
      if !ok { return; }
      strings := Some(b);
      namespaces.IncreaseDepth();
      assert Deepened([]) == [[]];
    }

    /** The eight ints that follow the type of a start tag. */
    method ReadTagInts() returns (ok: bool, w: Word, uri: Word, tag: Word, count: Word, classes: Word)
      requires reader.Valid()
      modifies reader
      ensures var ws, q := WordsOf(reader.stream), old(reader.At());
        && (ok <==> q + 8 <= |ws|)
        && (ok ==> reader.Valid() && reader.At() == q + 8 && w == ws[q + 1] && uri == ws[q + 3] && tag == ws[q + 4])
        && (ok ==> count == ws[q + 6] && classes == ws[q + 7])
    {
      hide WordsOf;
      w, uri, tag, count, classes := 0, 0, 0, 0, 0;
      ok := reader.SkipInt();
      if !ok { return; }
      ok, w := reader.ReadInt();
      if !ok { return; }
      ok := reader.SkipInt();
      if !ok { return; }
      ok, uri := reader.ReadInt();
      if !ok { return; }
      ok, tag := reader.ReadInt();
      if !ok { return; }
      ok := reader.SkipInt();
      if !ok { return; }
      ok, count := reader.ReadInt();
      if !ok { return; }
      ok, classes := reader.ReadInt();
    }

    method SetSpecial(count: int, classes: int)
      modifies this`idAttribute, this`classAttribute, this`styleAttribute
      ensures Special(idAttribute, classAttribute, styleAttribute) == SpecialOf(count, classes)
    {
      idAttribute := count / 0x1_0000 - 1;
      classAttribute, styleAttribute := classes % 0x1_0000 - 1, classes / 0x1_0000 - 1;
    }

    /** The ints and the attribute cells of a start tag. */
    method ReadTagParts(ghost c: Core) returns (ok: bool, w: Word, uri: Word, tag: Word, count: Word, classes: Word, cells: seq<Word>)
      requires reader.Valid()
      modifies reader
      ensures ok <==> StartBody(WordsOf(reader.stream), c, old(reader.At())).Some?
      ensures ok ==> reader.Valid()
      ensures ok ==> (StartBody(WordsOf(reader.stream), c, old(reader.At()))
        == Some((Core(reader.At(), c.ids, Deepened(c.frames), false, StartTag),
                 Info(Signed(w), Signed(uri), Signed(tag), cells, SpecialOf(count, classes)))))
    {
      hide WordsOf, TypesCut, SpecialOf;
      cells := [];
      ok, w, uri, tag, count, classes := ReadTagInts();
      if !ok { return; }
      ok, cells := reader.ReadIntArray(count % 0x1_0000 * 5);
      if !ok { return; }
      cells := CutTypes(cells);
    }

    /** A start tag after its type: names, attributes, and a new namespace frame. */
    method ReadStartTag(ghost c: Core) returns (ok: bool)
      requires reader.Valid() && namespaces.Valid() && strings.Some?
      requires c == Now().(event := c.event, pos := c.pos) && !c.decrease && InfoNow() == NoInfo
      modifies this`event, this`line, this`name, this`ns, this`attributes,
               this`idAttribute, this`classAttribute, this`styleAttribute, reader, namespaces, namespaces.data
      ensures ok <==> StartBody(WordsOf(reader.stream), c, old(reader.At())).Some?
      ensures ok ==> reader.Valid() && namespaces.Valid()
      ensures ok ==> StartBody(WordsOf(reader.stream), c, old(reader.At())) == Some((Now(), InfoNow()))
      ensures ok ==> namespaces.data == old(namespaces.data) || fresh(namespaces.data)
    {
      hide WordsOf, StartBody, Data, Pairs, Cells, SpecialOf;
      var w, uri, tag, count, classes, cells;
      ok, w, uri, tag, count, classes, cells := ReadTagParts(c);
      if !ok { return; }
      line, ns, name := Signed(w), Signed(uri), Signed(tag);
      SetSpecial(count, classes);
      attributes := cells;
      namespaces.IncreaseDepth();
      event := StartTag;
    }

    /** Shifts the type cell of every attribute down to the type. */
    static method CutTypes(raw: seq<Word>) returns (r: seq<Word>)
      ensures r == TypesCut(raw)
    {
      r := raw;
      var i := 3;
      while i < |r|
        invariant 3 <= i && i % 5 == 3 && |r| == |raw|
        invariant forall j :: 0 <= j < |raw| ==> r[j] == if j < i && j % 5 == 3 then raw[j] / 0x100_0000 else raw[j]
      {
        r := r[i := r[i] / 0x100_0000];
        i := i + 5;
      }
    }

    /** doNext once the parser is initialized. */
    method Advance() returns (ok: bool)
      requires Valid() && strings.Some?
      modifies this`ids, this`decrease, this`event, this`line, this`name, this`ns, this`attributes,
               this`idAttribute, this`classAttribute, this`styleAttribute, reader, namespaces, namespaces.data
      ensures old(event) == EndDocument ==> ok && Valid() && Now() == old(Now()) && InfoNow() == old(InfoNow())
      ensures old(event) != EndDocument ==> (ok <==> Next(WordsOf(reader.stream), old(Now())).Some?)
      ensures old(event) != EndDocument && ok ==> Valid() && Next(WordsOf(reader.stream), old(Now())) == Some((Now(), InfoNow()))
      ensures ok ==> namespaces.data == old(namespaces.data) || fresh(namespaces.data)
    {
      hide WordsOf, StartBody, Chunk, Data, Pairs;
      if event == EndDocument {
        return true;
      }
      var last := event;
      ghost var ws := WordsOf(reader.stream);
      ResetEventInfo();
      while true
        invariant reader.Valid() && namespaces.Valid() && event == NoEvent && InfoNow() == NoInfo
        invariant namespaces.data == old(namespaces.data) || fresh(namespaces.data)
        invariant Next(ws, old(Now())) == Next(ws, Now().(event := last))
        decreases |ws| - reader.At()
      {
        var more;
        ok, more := Iterate(last);
        if !ok || !more { return; }
      }
    }

    method Settle()
      requires reader.Valid() && namespaces.Valid()
      modifies this`decrease, namespaces
      ensures reader.Valid() && namespaces.Valid() && namespaces.data == old(namespaces.data)
      ensures Now() == old(Now()).(frames := Settled(old(decrease), old(namespaces.frames)), decrease := false)
    {
      hide Data, Pairs, Cells;
      if decrease {
        decrease := false;
        namespaces.DecreaseDepth();
      }
    }

    /** One turn of doNext's loop; more says that no event came of it. */
    method Iterate(last: EventType) returns (ok: bool, more: bool)
      requires reader.Valid() && namespaces.Valid() && strings.Some? && last != EndDocument
      requires event == NoEvent && InfoNow() == NoInfo
      modifies this`ids, this`decrease, this`event, this`line, this`name, this`ns, this`attributes,
               this`idAttribute, this`classAttribute, this`styleAttribute, reader, namespaces, namespaces.data
      ensures ok ==> reader.Valid() && namespaces.Valid() && (namespaces.data == old(namespaces.data) || fresh(namespaces.data))
      ensures var ws, c := WordsOf(reader.stream), old(Now().(event := last));
        && (!ok ==> Next(ws, c).None?)
        && (ok && !more ==> Next(ws, c) == Some((Now(), InfoNow())))
        && (ok && more ==> Next(ws, c) == Next(ws, Now().(event := last)))
      ensures ok && more ==> old(reader.At()) < reader.At() <= |WordsOf(reader.stream)| && event == NoEvent && InfoNow() == NoInfo
    {
      hide WordsOf, Turn, Data, Pairs, Cells, Settled;
      Settle();
      ok, more := TakeTurn(last);
    }

    method TakeTurn(last: EventType) returns (ok: bool, more: bool)
      requires reader.Valid() && namespaces.Valid() && strings.Some? && last != EndDocument && !decrease
      requires event == NoEvent && InfoNow() == NoInfo
      modifies this`ids, this`decrease, this`event, this`line, this`name, this`ns, this`attributes,
               this`idAttribute, this`classAttribute, this`styleAttribute, reader, namespaces, namespaces.data
      ensures ok ==> reader.Valid() && namespaces.Valid() && (namespaces.data == old(namespaces.data) || fresh(namespaces.data))
      ensures var ws, c := WordsOf(reader.stream), old(Now().(event := last));
        && (!ok ==> Turn(ws, c).None?)
        && (ok && !more ==> Turn(ws, c) == Some((Now(), InfoNow())))
        && (ok && more ==> Turn(ws, c) == Next(ws, Now().(event := last)))
      ensures ok && more ==> old(reader.At()) < reader.At() <= |WordsOf(reader.stream)| && event == NoEvent && InfoNow() == NoInfo
    {
      hide WordsOf, StartBody, Chunk, Data, Pairs, Cells, Next;
      more := false;
      var bottom := namespaces.GetCurrentCount();
      if last == EndTag && namespaces.depth == 1 && bottom == 0 {
        event := EndDocument;
        return true, false;
      }
      ghost var c := Now().(event := last);
      if last == StartDocument {
        ok := ReadStartTag(c);
        return;
      }
      var kind;
      ok, kind := reader.ReadInt();
      if !ok { return; }
      if kind == CHUNK_RESOURCEIDS {
        ok := ReadIds();
        more := true;
        return;
      }
      ok, more := ReadChunk(kind, last, c);
    }

    method ReadIds() returns (ok: bool)
      requires reader.Valid()
      modifies this`ids, reader
      ensures var ws, p := WordsOf(reader.stream), old(reader.At());
        && (ok <==> p < |ws| && Signed(ws[p]) >= 8 && ws[p] % 4 == 0 && p + 1 + (ws[p] / 4 - 2) <= |ws|)
        && (ok ==> reader.Valid() && reader.At() == p + 1 + (ws[p] / 4 - 2) && ids == ws[p + 1..p + 1 + (ws[p] / 4 - 2)])
    {
      hide WordsOf;
      var size, raw;
      ok, size := reader.ReadInt();
      if !ok || Signed(size) < 8 || Signed(size) % 4 != 0 { return false; }
      ok, raw := reader.ReadIntArray(size / 4 - 2);
      if ok {
        ids := raw;
      }
    }

    /** A chunk of the element tree after its type. */
    method ReadChunk(kind: Word, last: EventType, ghost c: Core) returns (ok: bool, more: bool)
      requires reader.Valid() && namespaces.Valid() && strings.Some? && c.pos + 1 == reader.At() <= |WordsOf(reader.stream)|
      requires c == Now().(event := c.event, pos := c.pos) && !c.decrease && InfoNow() == NoInfo && event == NoEvent
      requires kind == WordsOf(reader.stream)[c.pos] != CHUNK_RESOURCEIDS && c.event == last != StartDocument
      modifies this`decrease, this`event, this`line, this`name, this`ns, this`attributes,
               this`idAttribute, this`classAttribute, this`styleAttribute, reader, namespaces, namespaces.data
      ensures ok ==> reader.Valid() && namespaces.Valid() && (namespaces.data == old(namespaces.data) || fresh(namespaces.data))
      ensures var ws := WordsOf(reader.stream);
        && (!ok ==> Chunk(ws, c).None?)
        && (ok && !more ==> Chunk(ws, c) == Some((Now(), InfoNow())))
        && (ok && more ==> Chunk(ws, c) == Next(ws, Now().(event := c.event)))
      ensures ok && more ==> c.pos < reader.At() <= |WordsOf(reader.stream)| && event == NoEvent && InfoNow() == NoInfo
    {
      hide WordsOf, StartBody, Next, Data, Pairs, Cells;
      more := false;
      if kind < CHUNK_START_NAMESPACE || kind > CHUNK_TEXT {
        return false, false;
      }
      if kind == CHUNK_START_TAG {
        if last == NoEvent {
          event := StartDocument;
          return true, false;
        }
        ok := ReadStartTag(c);
        return;
      }
      var w, first, second;
      ok, w, first, second := ReadNodeInts();
      if !ok { return; }
      if kind == CHUNK_START_NAMESPACE {
        namespaces.Push(Signed(first), Signed(second));
        more := true;
      } else if kind == CHUNK_END_NAMESPACE {
        var popped := namespaces.PopTop();
        more := true;
      } else if kind == CHUNK_END_TAG {
        line, ns, name := Signed(w), Signed(first), Signed(second);
        event, decrease := EndTag, true;
      } else {
        ok := reader.SkipInt();
        line, name := Signed(w), Signed(first);
        event := TextEvent;
      }
    }

    /** Chunk size, line number, comment and two indices. */
    method ReadNodeInts() returns (ok: bool, w: Word, first: Word, second: Word)
      requires reader.Valid()
      modifies reader
      ensures var ws, q := WordsOf(reader.stream), old(reader.At());
        && (ok <==> q + 5 <= |ws|)
        && (ok ==> reader.Valid() && reader.At() == q + 5 && w == ws[q + 1] && first == ws[q + 3] && second == ws[q + 4])
    {
      hide WordsOf;
      w, first, second := 0, 0, 0;
      ok := reader.SkipInt();
      if !ok { return; }
      ok, w := reader.ReadInt();
      if !ok { return; }
      ok := reader.SkipInt();
      if !ok { return; }
      ok, first := reader.ReadInt();
      if !ok { return; }
      ok, second := reader.ReadInt();
    }

    // ----- the getters -----

    /** getName. */
    method GetName() returns (r: Lookup)
      requires strings.Some?
      ensures r == if event == StartTag || event == EndTag then StringAt(strings.value, name) else Null
    {
      if name == -1 || (event != StartTag && event != EndTag) {
        return Null;
      }
      r := GetString(strings.value, name);
    }

    method GetText() returns (r: Lookup)
      requires strings.Some?
      ensures r == if event == TextEvent then StringAt(strings.value, name) else Null
    {
      if name == -1 || event != TextEvent {
        return Null;
      }
      r := GetString(strings.value, name);
    }

    /** getPrefix. */
    method GetPrefix() returns (r: Lookup)
      requires Valid() && strings.Some?
      ensures r == StringAt(strings.value, PrefixOf(Pairs(namespaces.frames), ns))
    {
      hide StringAt, Pairs, Data;
      var prefix := namespaces.Find(ns, false);
      r := GetString(strings.value, prefix);
    }

    /** getAttributePrefix of a uri. */
    method GetAttributePrefix(uri: int) returns (r: Lookup)
      requires Valid() && strings.Some?
      ensures r == StringOrEmpty(strings.value, PrefixOf(Pairs(namespaces.frames), uri))
    {
      hide StringAt, Pairs, Data;
      var prefix := namespaces.Find(uri, false);
      if prefix == -1 {
        return Got([]);
      }
      r := GetString(strings.value, prefix);
    }

    /** The getters for attribute i: namespace, prefix, name, resource, type, data, value. */
    method GetAttribute(i: nat) returns (r: AttrView)
      requires Valid() && strings.Some? && 5 * i + 5 <= |attributes|
      ensures r == AttrAt(strings.value, ids, Pairs(namespaces.frames), attributes, i)
    {
      hide Pairs, Data, PrefixOf, StringAt;
      var b, offset := strings.value, i * 5;
      var uri, tag := Signed(attributes[offset]), Signed(attributes[offset + 1]);
      var attrNs, attrName, value := Got([]), Got([]), Got([]);
      if uri != -1 {
        attrNs := GetString(b, uri);
      }
      if tag != -1 {
        attrName := GetString(b, tag);
      }
      if attributes[offset + 3] == VALUE_STRING {
        value := GetString(b, Signed(attributes[offset + 2]));
      }
      var attrPrefix := GetAttributePrefix(uri);
      return AttrView(attrNs, attrPrefix, attrName, if tag < 0 || tag >= |ids| then 0 else ids[tag],
                      attributes[offset + 3], attributes[offset + 4], value);
    }

    method GetAttributes() returns (r: seq<AttrView>)
      requires Valid() && strings.Some?
      ensures r == AttrViews(strings.value, ids, Pairs(namespaces.frames), attributes)
    {
      hide AttrAt, Pairs, Data;
      r := [];
      for i := 0 to |attributes| / 5
        invariant r == AttrViews(strings.value, ids, Pairs(namespaces.frames), attributes)[..i]
      {
        var a := GetAttribute(i);
        r := r + [a];
      }
    }

    /** getNamespacePrefix and getNamespaceUri for every index below the namespace count. */
    method GetScope() returns (r: seq<(Lookup, Lookup)>)
      requires Valid() && strings.Some?
      ensures r == Scope(strings.value, Pairs(namespaces.frames))
    {
      hide StringAt, Pairs, Data;
      var n := namespaces.GetAccumulatedCount(namespaces.depth);
      assert namespaces.frames[..|namespaces.frames|] == namespaces.frames;
      r := [];
      for i := 0 to n
        invariant n == |Pairs(namespaces.frames)|
        invariant r == Scope(strings.value, Pairs(namespaces.frames))[..i]
      {
        var p := namespaces.Get(i, true);
        var u := namespaces.Get(i, false);
        var prefix := GetString(strings.value, p);
        var uri := GetString(strings.value, u);
        r := r + [(prefix, uri)];
      }
    }

    method Current() returns (e: Event)
      requires Valid() && strings.Some?
      ensures e == View(strings.value, Now(), InfoNow())
    {
      hide StringAt, AttrViews, Scope, Pairs, Data, PrefixOf;
      var tag := GetName();
      var uri := GetString(strings.value, ns);
      match event {
        case StartTag =>
          var prefix := GetPrefix();
          var attrs := GetAttributes();
          var scope := GetScope();
          e := TagStart(line, uri, prefix, tag, attrs, Special(idAttribute, classAttribute, styleAttribute), scope);
        case EndTag =>
          var prefix := GetPrefix();
          var scope := GetScope();
          e := TagEnd(line, uri, prefix, tag, scope);
        case TextEvent =>
          var text := GetText();
          e := Txt(line, text);
        case EndDocument => e := DocumentEnd;
        case NoEvent => e := DocumentStart;
        case StartDocument => e := DocumentStart;
      }
    }

    /** The decoding loop of AxmlUtil: next until the end of the document or an exception. */
    method ReadAll() returns (ok: bool, events: seq<Event>)
      requires Valid() && strings.None?
      modifies this, reader, namespaces, namespaces.data
      ensures match Opening(WordsOf(reader.stream))
        case None => !ok && events == []
        case Some((b, c)) => (events, ok) == Run(b, WordsOf(reader.stream), c)
    {
      hide WordsOf, Next, View, Opening, Run, Data, Pairs, Cells;
      events := [];
      ghost var ws := WordsOf(reader.stream);
      ok := Initialize();
      if !ok { return; }
      ghost var b, start := strings.value, Now();
      assert [] + Run(b, ws, start).0 == Run(b, ws, start).0;
      while true
        invariant Valid() && strings == Some(b) && event != EndDocument
        invariant namespaces.data == old(namespaces.data) || fresh(namespaces.data)
        invariant Run(b, ws, start).0 == events + Run(b, ws, Now()).0
        invariant Run(b, ws, start).1 == Run(b, ws, Now()).1
        decreases |ws| - reader.At()
      {
        ghost var c := Now();
        NextAdvances(ws, c);
        RunStep(b, ws, c);
        ok := Advance();
        if !ok {
          assert events + [] == events;
          return;
        }
        var e := Current();
        assert events + ([e] + Run(b, ws, Now()).0) == events + [e] + Run(b, ws, Now()).0;
        events := events + [e];
        if event == EndDocument {
          assert e == DocumentEnd by { EndView(b, Now(), InfoNow()); }
          return;
        }
      }
    }
  }

  lemma EndView(b: Block, c: Core, info: Info)
    requires c.event == EndDocument
    ensures View(b, c, info) == DocumentEnd
  {
  }

  lemma {:induction false} RunStep(b: Block, ws: seq<Word>, c: Core)
    ensures Run(b, ws, c) == match Next(ws, c)
      case None => ([], false)
      case Some((c', info)) =>
        if c'.event == EndDocument then ([DocumentEnd], true) else ([View(b, c', info)] + Run(b, ws, c').0, Run(b, ws, c').1)
  {
    hide Next, View;
  }
}
