/** The library sorts (Collections.sort, Arrays.sort): a stable sort by a comparator. */
module StableSort {

  ghost predicate Ordered<T>(le: (T, T) -> bool, s: seq<T>) {
    forall i, j :: 0 <= i < j < |s| ==> le(s[i], s[j])
  }

  /** The comparator is a total preorder on the elements of s. */
  ghost predicate TotalOn<T(!new)>(le: (T, T) -> bool, s: seq<T>) {
    && (forall a, b :: a in s && b in s ==> le(a, b) || le(b, a))
    && (forall a, b, c :: a in s && b in s && c in s && le(a, b) && le(b, c) ==> le(a, c))
  }

  /** Behind every element that compares equal. */
  function Inserted<T>(le: (T, T) -> bool, s: seq<T>, e: T): (r: seq<T>)
    ensures multiset(r) == multiset(s) + multiset{e}
  {
    if s == [] || le(s[|s| - 1], e) then s + [e]
    else
      assert s == s[..|s| - 1] + [s[|s| - 1]];
      Inserted(le, s[..|s| - 1], e) + [s[|s| - 1]]
  }

  lemma {:induction false} SameElements<T>(a: seq<T>, b: seq<T>)
    requires multiset(a) == multiset(b)
    ensures |a| == |b| && forall x :: x in a <==> x in b
  {
    assert |a| == |multiset(a)| && |b| == |multiset(b)|;
    forall x ensures x in a <==> x in b {
      assert x in a <==> x in multiset(a);
      assert x in b <==> x in multiset(b);
    }
  }

  lemma {:induction false} InsertedOrdered<T(!new)>(le: (T, T) -> bool, s: seq<T>, e: T)
    requires Ordered(le, s) && TotalOn(le, s + [e])
    ensures Ordered(le, Inserted(le, s, e))
  {
    assert forall x :: x in s + [e] <==> x in s || x == e;
    if s == [] {
    } else if le(s[|s| - 1], e) {
      forall i | 0 <= i < |s| ensures le(s[i], e) {
        assert s[i] in s && s[|s| - 1] in s;
        assert i < |s| - 1 ==> le(s[i], s[|s| - 1]);
      }
    } else {
      var low, last := s[..|s| - 1], s[|s| - 1];
      assert last in s && le(e, last);
      assert forall x :: x in low + [e] ==> x in s + [e];
      InsertedOrdered(le, low, e);
      var r := Inserted(le, low, e);
      SameElements(r, low + [e]);
      forall i | 0 <= i < |r| ensures le(r[i], last) {
        assert r[i] in r;
        assert r[i] in low || r[i] == e;
      }
    }
  }

  function Sort<T>(le: (T, T) -> bool, s: seq<T>): (r: seq<T>)
    ensures multiset(r) == multiset(s)
  {
    if s == [] then []
    else
      assert s == s[..|s| - 1] + [s[|s| - 1]];
      Inserted(le, Sort(le, s[..|s| - 1]), s[|s| - 1])
  }

  lemma {:induction false} SortOrders<T(!new)>(le: (T, T) -> bool, s: seq<T>)
    requires TotalOn(le, s)
    ensures Ordered(le, Sort(le, s))
  {
    if s != [] {
      var low, last := s[..|s| - 1], s[|s| - 1];
      assert forall x :: x in low ==> x in s;
      SortOrders(le, low);
      SameElements(Sort(le, low), low);
      assert forall x :: x in Sort(le, low) + [last] ==> x in s;
      InsertedOrdered(le, Sort(le, low), last);
    }
  }
}
