/** The string pool while the document is built and frozen, and the resource map drawn from it. */
module AxmlPool {
  import opened AxmlIo
  import opened StableSort

  /** A StringItem: a text, the namespace of the attribute it names (if any), its resource id. */
  datatype Item = Item(ns: Option<Str>, text: Str, id: int)

  /** getIdentifier for a namespace and an attribute name; -1 stands for a namespace without a
      package, for which genId leaves the id alone. */
  type Ids = (Str, Str) -> int

  ghost predicate ProperIds(ids: Ids) {
    forall ns, text :: -1 <= ids(ns, text) < MAX_INT
  }

  /** Items carry the id of their namespace and text. */
  predicate ItemOk(ids: Ids, i: Item) {
    i.id == if i.ns.Some? then ids(i.ns.value, i.text) else -1
  }

  // ----- looking a string up -----

  predicate Blank(ns: Option<Str>) { ns.None? || ns.value == [] }

  predicate Answers(i: Item, ns: Option<Str>, text: Str) {
    i.text == text && (Blank(ns) || i.ns == ns)
  }

  /** The first item that answers from position k on, or |items|. */
  function FirstFrom(items: seq<Item>, k: nat, ns: Option<Str>, text: Str): (r: nat)
    requires k <= |items|
    ensures k <= r <= |items|
    ensures r < |items| ==> Answers(items[r], ns, text)
    ensures forall i :: k <= i < r ==> !Answers(items[i], ns, text)
    decreases |items| - k
  {
    if k == |items| || Answers(items[k], ns, text) then k else FirstFrom(items, k + 1, ns, text)
  }

  predicate Found(items: seq<Item>, ns: Option<Str>, text: Str) {
    text == [] || exists i :: i in items && Answers(i, ns, text)
  }

  /** stringIndex: -1 for the empty string, else the first item that answers. */
  function Index(items: seq<Item>, ns: Option<Str>, text: Str): (r: int)
    ensures text == [] ==> r == -1
    ensures text != [] && Found(items, ns, text) ==>
      0 <= r < |items| && Answers(items[r], ns, text) && forall i :: 0 <= i < r ==> !Answers(items[i], ns, text)
  {
    if text == [] then -1 else FirstFrom(items, 0, ns, text)
  }

  // ----- sorting by id -----

  /** The comparator's key: -1 sorts last. */
  function Key(i: Item): int { if i.id == -1 then MAX_INT else i.id }

  ghost predicate Sorted(items: seq<Item>) {
    forall i, j :: 0 <= i < j < |items| ==> Key(items[i]) <= Key(items[j])
  }

  /** The comparator of preWrite. */
  predicate Before(a: Item, b: Item) { Key(a) <= Key(b) }

  function SortById(items: seq<Item>): (r: seq<Item>)
    ensures multiset(r) == multiset(items)
  {
    Sort(Before, items)
  }

  lemma {:induction false} SortedById(items: seq<Item>)
    ensures Sorted(SortById(items))
  {
    SortOrders(Before, items);
    hide Key;
  }

  // ----- the resource map -----

  /** ResourceMapChunk.preWrite: the ids up to the first item without one. */
  function IdPrefix(items: seq<Item>): (r: seq<int>)
    ensures |r| <= |items| && forall i :: 0 <= i < |r| ==> r[i] == items[i].id >= 0
    ensures |r| < |items| ==> items[|r|].id < 0
  {
    if items == [] || items[0].id < 0 then [] else [items[0].id] + IdPrefix(items[1..])
  }

  method ResourceIds(items: seq<Item>) returns (ids: seq<int>)
    ensures ids == IdPrefix(items)
  {
    hide IdPrefix;
    ids := [];
    var k := 0;
    assert items[0..] == items && [] + IdPrefix(items) == IdPrefix(items);
    while k < |items|
      invariant 0 <= k <= |items| && IdPrefix(items) == ids + IdPrefix(items[k..])
    {
      IdPrefixStep(items, k);
      if items[k].id < 0 {
        return;
      }
      ids := ids + [items[k].id];
      k := k + 1;
    }
    NoItems(items[k..]);
  }

  lemma NoItems(items: seq<Item>)
    requires items == []
    ensures IdPrefix(items) == []
  {
  }

  lemma {:induction false} IdPrefixStep(items: seq<Item>, k: nat)
    requires k < |items|
    ensures IdPrefix(items[k..]) == if items[k].id < 0 then [] else [items[k].id] + IdPrefix(items[k + 1..])
  {
    assert items[k..][0] == items[k] && items[k..][1..] == items[k + 1..];
  }

  /** After sorting, position i of the resource map is the id of string i, and exactly the
      strings that have an id are covered. */
  lemma {:induction false} MapCoversIds(items: seq<Item>, i: nat)
    requires Sorted(items) && i < |items|
    requires forall x :: x in items ==> -1 <= x.id < MAX_INT
    ensures i < |IdPrefix(items)| <==> items[i].id >= 0
    ensures i < |IdPrefix(items)| ==> IdPrefix(items)[i] == items[i].id
  {
    var n := |IdPrefix(items)|;
    if n <= i {
      assert items[n] in items && items[i] in items;
      assert Key(items[n]) == MAX_INT;
    }
  }

  // ----- building the pool -----

  /** The position at which addString(namespace, text) stops: the first item of the list with no
      namespace or with this one. */
  function Slot(list: seq<Item>, ns: Option<Str>): (r: nat)
    ensures r <= |list|
    ensures r < |list| ==> list[r].ns.None? || list[r].ns == ns
    ensures forall i :: 0 <= i < r ==> list[i].ns.Some? && list[i].ns != ns
  {
    if list == [] || list[0].ns.None? || list[0].ns == ns then 0 else 1 + Slot(list[1..], ns)
  }

  /** A StringItem made with a namespace, or given one. */
  function Tagged(ids: Ids, ns: Option<Str>, text: Str): Item {
    Item(ns, text, if ns.Some? then ids(ns.value, text) else -1)
  }

  /** (namespace, text) can be looked up once the pool is frozen. */
  ghost predicate Holds(lists: map<Str, seq<Item>>, ns: Option<Str>, text: Str) {
    text in lists && exists i :: i in lists[text] && (Blank(ns) || i.ns == ns)
  }

  /** The list of a text after addString(namespace, text): the first item that has this namespace
      or none takes it, or else an item is added. */
  function Qualified(ids: Ids, list: seq<Item>, ns: Option<Str>, text: Str): (r: seq<Item>)
    ensures r != [] && Tagged(ids, ns, text) in r
    ensures forall i :: i in r ==> i in list || i == Tagged(ids, ns, text)
  {
    var i, item := Slot(list, ns), Tagged(ids, ns, text);
    var after := if i < |list| then list[i := item] else list + [item];
    assert after[i] == item;
    after
  }

  function ListOf(lists: map<Str, seq<Item>>, text: Str): seq<Item> { if text in lists then lists[text] else [] }

  /** Adding an item, or giving one without a namespace a namespace, loses no lookup. */
  lemma {:induction false} StillHolds(ids: Ids, lists: map<Str, seq<Item>>, ns: Option<Str>, text: Str)
    ensures var after := lists[text := Qualified(ids, ListOf(lists, text), ns, text)];
      Holds(after, ns, text) && forall ns', t :: Holds(lists, ns', t) ==> Holds(after, ns', t)
  {
    var list := ListOf(lists, text);
    var r := Qualified(ids, list, ns, text);
    forall ns', t | Holds(lists, ns', t) ensures Holds(lists[text := r], ns', t) {
      if t == text {
        var x :| x in list && (Blank(ns') || x.ns == ns');
        var j :| 0 <= j < |list| && list[j] == x;
        assert r[j] in r;
      }
    }
  }

  /** Every list is non-empty and holds proper items of its key. */
  ghost predicate ListsOk(ids: Ids, lists: map<Str, seq<Item>>) {
    && (forall t :: t in lists ==> lists[t] != [])
    && (forall t, i :: t in lists && i in lists[t] ==> i.text == t && ItemOk(ids, i))
  }

  lemma {:induction false} QualifiedOk(ids: Ids, lists: map<Str, seq<Item>>, ns: Option<Str>, text: Str)
    requires ListsOk(ids, lists)
    ensures ListsOk(ids, lists[text := Qualified(ids, ListOf(lists, text), ns, text)])
  {
    hide Slot, Qualified;
  }

  /** The namespaces and names that the lists hold items for. */
  function Names(lists: map<Str, seq<Item>>): set<(Str, Str)> {
    set t, i | t in lists && i in lists[t] && i.ns.Some? :: (i.ns.value, t)
  }

  function ItemNames(items: seq<Item>): set<(Str, Str)> {
    set i | i in items && i.ns.Some? :: (i.ns.value, i.text)
  }

  /** These texts and names have been added, and no lookup was lost. */
  ghost predicate Extends(before: map<Str, seq<Item>>, after: map<Str, seq<Item>>, texts: set<Str>, names: set<(Str, Str)>) {
    && after.Keys == before.Keys + texts
    && Names(after) == Names(before) + names
    && forall ns, t :: Holds(before, ns, t) ==> Holds(after, ns, t)
  }

  lemma {:induction false} ExtendsTwice(a: map<Str, seq<Item>>, b: map<Str, seq<Item>>, c: map<Str, seq<Item>>,
      texts: set<Str>, names: set<(Str, Str)>, moreTexts: set<Str>, moreNames: set<(Str, Str)>)
    requires Extends(a, b, texts, names) && Extends(b, c, moreTexts, moreNames)
    ensures Extends(a, c, texts + moreTexts, names + moreNames)
  {
    hide Names, Holds;
  }

  lemma {:induction false} ExtendsTexts(a: map<Str, seq<Item>>, b: map<Str, seq<Item>>, c: map<Str, seq<Item>>,
      texts: set<Str>, moreTexts: set<Str>)
    requires Extends(a, b, texts, {}) && Extends(b, c, moreTexts, {})
    ensures Extends(a, c, texts + moreTexts, {})
  {
    hide Names, Holds;
  }

  lemma {:induction false} ExtendsNothing(a: map<Str, seq<Item>>)
    ensures Extends(a, a, {}, {})
  {
    hide Names, Holds;
  }

  /** addString(namespace, text) adds that pair to the names, if there is a namespace, and takes
      none away. */
  lemma {:induction false} QualifiedNames(ids: Ids, lists: map<Str, seq<Item>>, ns: Option<Str>, text: Str)
    ensures Names(lists[text := Qualified(ids, ListOf(lists, text), ns, text)])
      == Names(lists) + if ns.Some? then {(ns.value, text)} else {}
  {
    var list := ListOf(lists, text);
    var r := Qualified(ids, list, ns, text);
    var after := lists[text := r];
    forall x | x in Names(lists) ensures x in Names(after) {
      var t, i :| t in lists && i in lists[t] && i.ns.Some? && x == (i.ns.value, t);
      if t == text {
        var j :| 0 <= j < |list| && list[j] == i;
        assert r[j] in r && r[j].ns == i.ns;
      }
      assert t in after;
    }
    forall x | x in Names(after) ensures x in Names(lists) || (ns.Some? && x == (ns.value, text)) {
      var t: Str, i: Item :| t in after && i in after[t] && i.ns.Some? && x == (i.ns.value, t);
      if t == text && i in list {
        assert text in lists && i in lists[text];
      }
    }
    if ns.Some? {
      assert text in after && Tagged(ids, ns, text) in after[text];
    }
  }

  lemma {:induction false} TextNames(lists: map<Str, seq<Item>>, text: Str)
    requires text !in lists
    ensures Names(lists[text := [Item(None, text, -1)]]) == Names(lists)
  {
    var after := lists[text := [Item(None, text, -1)]];
    forall x | x in Names(lists) ensures x in Names(after) {
      var t, i :| t in lists && i in lists[t] && i.ns.Some? && x == (i.ns.value, t);
      assert t in after && i in after[t];
    }
    forall x | x in Names(after) ensures x in Names(lists) {
      var t: Str, i: Item :| t in after && i in after[t] && i.ns.Some? && x == (i.ns.value, t);
      assert t in lists && i in lists[t];
    }
  }

  class StringPool {
    const ids: Ids
    var lists: map<Str, seq<Item>>          // the field `map`
    var rawStrings: seq<Item>

    ghost predicate Valid()
      reads this
    {
      ProperIds(ids) && ListsOk(ids, lists)
    }

    constructor (ids: Ids)
      requires ProperIds(ids)
      ensures Valid() && lists == map[] && this.ids == ids
    {
      this.ids, lists, rawStrings := ids, map[], [];
    }

    /** addString(text). */
    method AddText(text: Str)
      requires Valid()
      modifies this`lists
      ensures Valid() && Holds(lists, None, text)
      ensures lists == if text in old(lists) then old(lists) else old(lists)[text := [Item(None, text, -1)]]
      ensures Extends(old(lists), lists, {text}, {})
    {
      hide Names;
      if text !in lists {
        TextNames(lists, text);
        lists := lists[text := [Item(None, text, -1)]];
        assert lists[text][0] in lists[text];
      }
      assert lists[text][0] in lists[text];
    }

    static method FindSlot(list: seq<Item>, ns: Option<Str>) returns (i: nat)
      ensures i == Slot(list, ns)
    {
      i := 0;
      while i < |list| && list[i].ns.Some? && list[i].ns != ns
        invariant 0 <= i <= |list| && Slot(list, ns) == i + Slot(list[i..], ns)
      {
        assert list[i..][0] == list[i] && list[i..][1..] == list[i + 1..];
        i := i + 1;
      }
      assert i < |list| ==> list[i..][0] == list[i];
    }

    /** addString(namespace, text): an item of the text that has no namespace yet takes this one. */
    method AddQualified(ns: Option<Str>, text: Str)
      requires Valid()
      modifies this`lists
      ensures Valid() && Holds(lists, ns, text)
      ensures lists == old(lists)[text := Qualified(ids, ListOf(old(lists), text), ns, text)]
      ensures Extends(old(lists), lists, {text}, if ns.Some? then {(ns.value, text)} else {})
    {
      var list := if text in lists then lists[text] else [];
      var i := FindSlot(list, ns);
      var item := Tagged(ids, ns, text);
      StillHolds(ids, lists, ns, text);
      QualifiedOk(ids, lists, ns, text);
      QualifiedNames(ids, lists, ns, text);
      var after := if i < |list| then list[i := item] else list + [item];
      assert after == Qualified(ids, ListOf(lists, text), ns, text);
      hide Slot, Holds, Qualified, ListsOk, ItemOk, ListOf, Tagged, Names;
      lists := lists[text := after];
    }

    /** The items list by list in the order of the keys. */
    static function Flat(lists: map<Str, seq<Item>>, order: seq<Str>): seq<Item>
      requires forall t :: t in order ==> t in lists
    {
      if order == [] then [] else Flat(lists, order[..|order| - 1]) + lists[order[|order| - 1]]
    }

    static lemma {:induction false} FlatHas(lists: map<Str, seq<Item>>, order: seq<Str>, i: Item)
      requires forall t :: t in order ==> t in lists
      ensures i in Flat(lists, order) <==> exists t :: t in order && i in lists[t]
    {
      if order != [] {
        var low, last := order[..|order| - 1], order[|order| - 1];
        assert order == low + [last];
        FlatHas(lists, low, i);
      }
    }

    /** The first half of preWrite: all items in the map's own order, then sorted by id. The
        order in which a hash map yields its keys is anybody's guess. */
    method Freeze(order: seq<Str>)
      requires Valid() && (forall t :: t in order <==> t in lists)
      modifies this`rawStrings
      ensures rawStrings == SortById(Flat(lists, order))
      ensures Sorted(rawStrings) && forall i :: i in rawStrings ==> i.text in lists && ItemOk(ids, i) && -1 <= i.id < MAX_INT
      ensures forall ns, text :: Found(rawStrings, ns, text) <==> text == [] || Holds(lists, ns, text)
      ensures ItemNames(rawStrings) == Names(lists)
    {
      var all := [];
      var k := 0;
      while k < |order|
        invariant 0 <= k <= |order| && all == Flat(lists, order[..k])
      {
        assert order[..k + 1][..k] == order[..k];
        all := all + lists[order[k]];
        k := k + 1;
      }
      assert order[..k] == order;
      rawStrings := SortById(all);
      SortedById(all);
      FrozenFinds(ids, lists, order, rawStrings);
      FrozenNames(lists, order, rawStrings);
    }

    static lemma {:induction false} FrozenNames(lists: map<Str, seq<Item>>, order: seq<Str>, raw: seq<Item>)
      requires forall t :: t in order <==> t in lists
      requires forall t, i :: t in lists && i in lists[t] ==> i.text == t
      requires raw == SortById(Flat(lists, order))
      ensures ItemNames(raw) == Names(lists)
    {
      hide Flat, SortById;
      SameElements(raw, Flat(lists, order));
      forall x | x in ItemNames(raw) ensures x in Names(lists) {
        var i :| i in raw && i.ns.Some? && x == (i.ns.value, i.text);
        FlatHas(lists, order, i);
        var t :| t in order && i in lists[t];
        assert t == i.text;
      }
      forall x | x in Names(lists) ensures x in ItemNames(raw) {
        var t, i :| t in lists && i in lists[t] && i.ns.Some? && x == (i.ns.value, t);
        FlatHas(lists, order, i);
        assert i in raw;
      }
    }

    static lemma {:induction false} FrozenFinds(ids: Ids, lists: map<Str, seq<Item>>, order: seq<Str>, raw: seq<Item>)
      requires ProperIds(ids) && forall t :: t in order <==> t in lists
      requires forall t, i :: t in lists && i in lists[t] ==> i.text == t && ItemOk(ids, i)
      requires raw == SortById(Flat(lists, order))
      ensures forall i :: i in raw ==> i.text in lists && ItemOk(ids, i) && -1 <= i.id < MAX_INT
      ensures forall ns, text :: Found(raw, ns, text) <==> text == [] || Holds(lists, ns, text)
    {
      hide Flat, SortById;
      SameElements(raw, Flat(lists, order));
      forall i | i in raw ensures i.text in lists && i in lists[i.text] && ItemOk(ids, i) && -1 <= i.id < MAX_INT {
        FlatHas(lists, order, i);
      }
      forall ns, text | Holds(lists, ns, text) ensures Found(raw, ns, text) {
        var i :| i in lists[text] && (Blank(ns) || i.ns == ns);
        FlatHas(lists, order, i);
        assert i in raw && Answers(i, ns, text);
      }
    }

    /** stringIndex; not ok is the exception for a string that was never added. */
    method StringIndex(ns: Option<Str>, text: Str) returns (ok: bool, r: int)
      ensures ok <==> Found(rawStrings, ns, text)
      ensures ok ==> r == Index(rawStrings, ns, text)
    {
      if text == [] {
        return true, -1;
      }
      var i := 0;
      while i < |rawStrings|
        invariant 0 <= i <= |rawStrings| && FirstFrom(rawStrings, 0, ns, text) == FirstFrom(rawStrings, i, ns, text)
      {
        if text == rawStrings[i].text && (Blank(ns) || ns == rawStrings[i].ns) {
          assert rawStrings[i] in rawStrings;
          return true, i;
        }
        i := i + 1;
      }
      return false, 0;
    }
  }
}
