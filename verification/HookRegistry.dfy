/** Which callbacks a method has: the sorted copy-on-write sets, hookMethod and unhookMethod. */
module HookRegistry {
  import opened StableSort

  datatype Option<+T> = None | Some(value: T)

  type Int = x: int | -0x8000_0000 <= x < 0x8000_0000

  /** A callback object by its identity, with what compareTo looks at. */
  datatype Callback = Callback(id: nat, priority: Int, hash: Int)

  /** A Java int difference. */
  function Wrapped(x: int): int { (x + 0x8000_0000) % 0x1_0000_0000 - 0x8000_0000 }

  /** XCallback.compareTo: higher priority first, then by identity hash code. */
  function CompareTo(a: Callback, b: Callback): int {
    if a == b then 0
    else if b.priority != a.priority then Wrapped(b.priority - a.priority)
    else if a.hash < b.hash then -1
    else 1
  }

  /** Hash codes tell apart the callbacks of one priority, and no difference of priorities
      overflows. */
  ghost predicate Comparable(s: set<Callback>) {
    forall a, b :: a in s && b in s && a != b ==>
      -0x8000_0000 <= b.priority - a.priority < 0x8000_0000 && (a.priority == b.priority ==> a.hash != b.hash)
  }

  /** compareTo answers the two ways round consistently, and puts the higher priority first. */
  ghost predicate OrdersPair(a: Callback, b: Callback) {
    && (CompareTo(a, b) == 0 <==> a == b)
    && (CompareTo(a, b) < 0 <==> CompareTo(b, a) > 0)
    && (CompareTo(a, b) < 0 ==> a.priority >= b.priority)
  }

  /** compareTo is an order by falling priority on exactly these sets, and then it is transitive. */
  lemma {:induction false} CompareIsOrder(s: set<Callback>)
    ensures Comparable(s) <==> forall a, b :: a in s && b in s ==> OrdersPair(a, b)
    ensures Comparable(s) ==>
      forall a, b, c :: a in s && b in s && c in s && CompareTo(a, b) < 0 && CompareTo(b, c) < 0 ==> CompareTo(a, c) < 0
  {
    hide CompareTo, OrdersPair;
    forall a, b | a in s && b in s ensures Comparable(s) ==> OrdersPair(a, b) {
      PairExact(a, b);
    }
    forall a, b | a in s && b in s && a != b && OrdersPair(a, b) && OrdersPair(b, a)
      ensures -0x8000_0000 <= b.priority - a.priority < 0x8000_0000 && (a.priority == b.priority ==> a.hash != b.hash)
    {
      PairExact(a, b);
    }
    forall a, b, c | Comparable(s) && a in s && b in s && c in s && CompareTo(a, b) < 0 && CompareTo(b, c) < 0 ensures CompareTo(a, c) < 0 {
      CompareChains(s, a, b, c);
    }
  }

  lemma PairExact(a: Callback, b: Callback)
    ensures (a != b ==> -0x8000_0000 < b.priority - a.priority < 0x8000_0000 && (a.priority == b.priority ==> a.hash != b.hash))
      <==> OrdersPair(a, b) && OrdersPair(b, a)
  {
  }

  lemma CompareChains(s: set<Callback>, a: Callback, b: Callback, c: Callback)
    requires Comparable(s) && a in s && b in s && c in s && CompareTo(a, b) < 0 && CompareTo(b, c) < 0
    ensures CompareTo(a, c) < 0
  {
    assert Wrapped(b.priority - a.priority) == b.priority - a.priority;
    assert b != c ==> Wrapped(c.priority - b.priority) == c.priority - b.priority;
    assert a != c ==> Wrapped(c.priority - a.priority) == c.priority - a.priority;
  }

  lemma ComparablePair(s: set<Callback>, a: Callback, b: Callback)
    requires Comparable(s) && a in s && b in s
    ensures OrdersPair(a, b)
  {
    PairExact(a, b);
  }

  /** A difference that overflows puts the low priority first; Arrays.sort then has nothing to do. */
  lemma OverflowMisorders(a: Callback, b: Callback)
    requires a.priority == -2 && b.priority == 0x7FFF_FFFF
    ensures Sorted([a, b]) && a.priority < b.priority && !Comparable({a, b})
  {
  }

  ghost predicate Sorted(s: seq<Callback>) {
    forall i, j :: 0 <= i < j < |s| ==> CompareTo(s[i], s[j]) < 0
  }

  function SetOf(s: seq<Callback>): set<Callback> { set c | c in s }

  // ----- Arrays.sort -----

  predicate NotAfter(a: Callback, b: Callback) { CompareTo(a, b) <= 0 }

  function SortedBy(s: seq<Callback>): (r: seq<Callback>)
    ensures multiset(r) == multiset(s)
  {
    Sort(NotAfter, s)
  }

  ghost predicate Distinct(s: seq<Callback>) { forall i, j :: 0 <= i < j < |s| ==> s[i] != s[j] }

  lemma {:induction false} NotAfterIsTotal(s: seq<Callback>)
    requires Comparable(SetOf(s))
    ensures TotalOn(NotAfter, s)
  {
    hide CompareTo, Comparable;
    var all := SetOf(s);
    CompareIsOrder(all);
    assert forall a, b :: a in s && b in s ==> OrdersPair(a, b);
    forall a, b, c | a in s && b in s && c in s && NotAfter(a, b) && NotAfter(b, c) ensures NotAfter(a, c) {
      assert a in all && b in all && c in all && OrdersPair(a, b) && OrdersPair(b, c);
    }
  }

  lemma {:induction false} DistinctStays(a: seq<Callback>, b: seq<Callback>)
    requires multiset(a) == multiset(b) && Distinct(a)
    ensures Distinct(b)
  {
    forall i, j | 0 <= i < j < |b| ensures b[i] != b[j] {
      if b[i] == b[j] {
        assert b == b[..j] + [b[j]] + b[j + 1..] && b[i] in b[..j];
        assert multiset(a)[b[i]] >= 2;
        OnlyOnce(a, b[i]);
      }
    }
  }

  lemma {:induction false} OnlyOnce(a: seq<Callback>, x: Callback)
    requires Distinct(a)
    ensures multiset(a)[x] <= 1
  {
    if a != [] {
      var low, last := a[..|a| - 1], a[|a| - 1];
      assert a == low + [last];
      OnlyOnce(low, x);
      if x == last {
        assert x !in low;
      }
    }
  }

  lemma {:induction false} SortSorts(s: seq<Callback>)
    requires Distinct(s) && Comparable(SetOf(s))
    ensures Sorted(SortedBy(s))
  {
    var r := SortedBy(s);
    NotAfterIsTotal(s);
    SortOrders(NotAfter, s);
    SameElements(r, s);
    DistinctStays(s, r);
    hide CompareTo, Comparable;
    forall i, j | 0 <= i < j < |r| ensures CompareTo(r[i], r[j]) < 0 {
      assert NotAfter(r[i], r[j]) && r[i] in r && r[j] in r;
      ComparablePair(SetOf(s), r[i], r[j]);
    }
  }

  /** java.util.Arrays.sort, a library method: sorts in place. Where compareTo is no order, the result
      is some arrangement. */
  method SortArray(a: array<Callback>)
    requires Distinct(a[..])
    modifies a
    ensures multiset(a[..]) == multiset(old(a[..]))
    ensures Comparable(SetOf(old(a[..]))) ==> Sorted(a[..])
  {
    hide CompareTo, Comparable, SortedBy, Sorted;
    var s := SortedBy(a[..]);
    if Comparable(SetOf(a[..])) {
      SortSorts(a[..]);
    }
    SameElements(s, a[..]);
    forall i | 0 <= i < a.Length {
      a[i] := s[i];
    }
    assert a[..] == s;
  }

  // ----- the set -----

  class CopyOnWriteSortedSet {
    var elements: array<Callback>
    ghost var ever: set<Callback>       // all that were added at some time

    /** Without duplicates; and in compareTo order as long as that is one. */
    ghost predicate Valid()
      reads this, elements
    {
      Distinct(elements[..]) && SetOf(elements[..]) <= ever && (Comparable(ever) ==> Sorted(elements[..]))
    }

    constructor ()
      ensures Valid() && elements[..] == [] && ever == {}
    {
      elements, ever := new Callback[0], {};
    }

    method IndexOf(o: Callback) returns (r: int)
      ensures -1 <= r < elements.Length
      ensures r >= 0 ==> elements[r] == o
      ensures r == -1 ==> o !in elements[..]
    {
      var i := 0;
      while i < elements.Length
        invariant 0 <= i <= elements.Length && o !in elements[..i]
      {
        if o == elements[i] {
          return i;
        }
        i := i + 1;
      }
      assert elements[..i] == elements[..];
      return -1;
    }

    /** Puts e in its place in a new array; the old array, and so every snapshot, stays as it is. */
    method Add(e: Callback) returns (r: bool)
      requires Valid()
      modifies this
      ensures Valid() && r == (e !in old(elements[..])) && ever == old(ever) + {e}
      ensures old(elements)[..] == old(elements[..])
      ensures !r ==> elements == old(elements)
      ensures r ==> fresh(elements) && multiset(elements[..]) == multiset(old(elements[..])) + multiset{e}
      ensures r && Comparable(SetOf(elements[..])) ==> Sorted(elements[..])
      ensures SetOf(elements[..]) == SetOf(old(elements[..])) + {e}
    {
      hide CompareTo, Comparable, Sorted, Distinct;
      var index := IndexOf(e);
      if index >= 0 {
        assert SetOf(elements[..]) == SetOf(elements[..]) + {e} && ever == ever + {e} by { assert elements[index] in elements[..]; }
        return false;
      }
      ghost var s := elements[..];
      DistinctAppend(s, e);
      var n := elements.Length;
      var newElements := new Callback[n + 1];
      forall i | 0 <= i < n {
        newElements[i] := elements[i];
      }
      newElements[n] := e;
      assert newElements[..] == s + [e];
      SortArray(newElements);
      SameElements(newElements[..], s + [e]);
      assert SetOf(newElements[..]) == SetOf(s + [e]);
      DistinctStays(s + [e], newElements[..]);
      ComparableBelow(ever + {e}, SetOf(s + [e]));
      elements, ever := newElements, ever + {e};
      return true;
    }

    /** Takes e out, again in a new array. */
    method Remove(e: Callback) returns (r: bool)
      requires Valid()
      modifies this`elements
      ensures Valid() && r == (e in old(elements[..]))
      ensures old(elements)[..] == old(elements[..])
      ensures !r ==> elements == old(elements)
      ensures r ==> fresh(elements) && elements.Length == old(elements.Length) - 1
      ensures old(Sorted(elements[..])) ==> Sorted(elements[..])
      ensures SetOf(elements[..]) == SetOf(old(elements[..])) - {e}
    {
      hide CompareTo, Comparable;
      var index := IndexOf(e);
      if index == -1 {
        return false;
      }
      ghost var s := elements[..];
      var n := elements.Length;
      var newElements := new Callback[n - 1];
      forall i | 0 <= i < index {
        newElements[i] := elements[i];
      }
      forall i | index <= i < n - 1 {
        newElements[i] := elements[i + 1];
      }
      assert newElements[..] == s[..index] + s[index + 1..];
      WithoutOne(s, index);
      hide *;
      elements := newElements;
      return true;
    }
  }

  lemma ComparableBelow(all: set<Callback>, s: set<Callback>)
    requires s <= all
    ensures Comparable(all) ==> Comparable(s)
  {
  }

  lemma {:induction false} WithoutOne(s: seq<Callback>, i: nat)
    requires i < |s| && Distinct(s)
    ensures var r := s[..i] + s[i + 1..];
      SetOf(r) == SetOf(s) - {s[i]} && Distinct(r) && (Sorted(s) ==> Sorted(r))
  {
    hide CompareTo;
    var r := s[..i] + s[i + 1..];
    assert s == s[..i] + [s[i]] + s[i + 1..];
    assert s[i] !in s[..i] && s[i] !in s[i + 1..];
    if Sorted(s) {
      forall j, k | 0 <= j < k < |r| ensures CompareTo(r[j], r[k]) < 0 {
        var j', k' := if j < i then j else j + 1, if k < i then k else k + 1;
        assert r[j] == s[j'] && r[k] == s[k'];
      }
    }
  }

  lemma {:induction false} DistinctAppend(s: seq<Callback>, e: Callback)
    requires Distinct(s) && e !in s
    ensures Distinct(s + [e]) && SetOf(s + [e]) == SetOf(s) + {e}
  {
  }

  // ----- hookMethod and unhookMethod -----

  datatype HookInfo = HookInfo(backup: nat, callbacks: CopyOnWriteSortedSet)

  class Bridge {
    var hookRecords: map<nat, HookInfo>       // by method
    ghost var native: set<nat>                // the methods hooked by hook0 and not yet unhooked

    ghost function Sets(): set<object>
      reads this
    {
      set m | m in hookRecords :: hookRecords[m].callbacks
    }

    ghost function Arrays(): set<object>
      reads this, Sets()
    {
      set m | m in hookRecords :: hookRecords[m].callbacks.elements
    }

    /** A method has a record exactly while it is natively hooked, each with a set of its own that
        is not empty. */
    ghost predicate Valid()
      reads this, Sets(), Arrays()
    {
      && native == hookRecords.Keys
      && (forall m :: m in hookRecords ==>
            var c := hookRecords[m].callbacks; c.Valid() && c.elements.Length > 0)
      && (forall m, n :: m in hookRecords && n in hookRecords && m != n ==> hookRecords[m].callbacks != hookRecords[n].callbacks)
    }

    /** The callbacks of a method. */
    ghost function Callbacks(m: nat): set<Callback>
      reads this, Sets(), Arrays()
    {
      if m in hookRecords then SetOf(hookRecords[m].callbacks.elements[..]) else {}
    }

    constructor ()
      ensures Valid() && hookRecords == map[]
    {
      hookRecords, native := map[], {};
    }

    /** isHooked. */
    predicate IsHooked(m: nat)
      reads this
    {
      m in hookRecords
    }

    /** hookMethod; hook0 gives the backup or none, in which case it throws. */
    method HookMethod(m: nat, callback: Callback, backup: Option<nat>) returns (ok: bool)
      requires Valid()
      modifies this, if m in hookRecords then {hookRecords[m].callbacks} else {}
      ensures Valid()
      ensures ok == (old(IsHooked(m)) || backup.Some?)
      ensures !ok ==> hookRecords == old(hookRecords)
      ensures ok ==> Callbacks(m) == old(Callbacks(m)) + {callback}
      ensures ok ==> hookRecords[m].callbacks.ever == (if old(IsHooked(m)) then old(hookRecords[m].callbacks.ever) else {}) + {callback}
      ensures ok && !old(IsHooked(m)) ==> hookRecords[m].backup == backup.value
      ensures ok && old(IsHooked(m)) ==> hookRecords[m] == old(hookRecords)[m]
      ensures forall n :: n != m ==> IsHooked(n) == old(IsHooked(n)) && (IsHooked(n) ==> hookRecords[n] == old(hookRecords)[n])
    {
      hide CompareTo, Comparable, Sorted, Distinct;
      if m !in hookRecords {
        if backup.None? {
          return false;
        }
        var callbacks := new CopyOnWriteSortedSet();
        var added := callbacks.Add(callback);
        hookRecords, native := hookRecords[m := HookInfo(backup.value, callbacks)], native + {m};
        return true;
      }
      var added := hookRecords[m].callbacks.Add(callback);
      return true;
    }

    /** unhookMethod: the last callback to go takes the native hook with it. */
    method UnhookMethod(m: nat, callback: Callback)
      requires Valid()
      modifies this, if m in hookRecords then {hookRecords[m].callbacks} else {}
      ensures Valid()
      ensures Callbacks(m) == old(Callbacks(m)) - {callback}
      ensures IsHooked(m) <==> old(Callbacks(m)) - {callback} != {}
      ensures IsHooked(m) ==> hookRecords[m] == old(hookRecords)[m]
      ensures forall n :: n != m ==> IsHooked(n) == old(IsHooked(n)) && (IsHooked(n) ==> hookRecords[n] == old(hookRecords)[n])
    {
      hide CompareTo, Comparable, Sorted, Distinct;
      if m in hookRecords {
        var callbacks := hookRecords[m].callbacks;
        var removed := callbacks.Remove(callback);
        if callbacks.elements.Length == 0 {
          assert SetOf(callbacks.elements[..]) == {};
          hookRecords := hookRecords - {m};
          native := native - {m};
        } else {
          assert callbacks.elements[0] in SetOf(callbacks.elements[..]);
        }
      }
    }
  }
}
