/** tinystl::unordered_map: one doubly linked list threaded through all buckets. Slot b of
    the bucket array points at the first node whose bucket is at least b; the last slot is a
    sentinel that is always null. The hash function is a parameter, so everything here holds
    for any hash. */
module HashTable {

  datatype Option<+T> = None | Some(value: T)

  class Node<K, V> {
    const key: K
    var value: V
    var next: Node?<K, V>
    var prev: Node?<K, V>

    constructor (key: K, value: V)
      ensures this.key == key && this.value == value && next == null && prev == null
    {
      this.key, this.value, next, prev := key, value, null, null;
    }
  }

  // ----- sorted bucket numbers -----

  ghost predicate Sorted(bs: seq<nat>) { forall i, j :: 0 <= i < j < |bs| ==> bs[i] <= bs[j] }

  /** How many elements of bs are below b. */
  ghost function Below(bs: seq<nat>, b: nat): (n: nat)
    ensures n <= |bs|
  {
    if bs == [] then 0 else Below(bs[..|bs| - 1], b) + if bs[|bs| - 1] < b then 1 else 0
  }

  /** On a sorted sequence Below(bs, b) is the place of the first element that is not below b. */
  lemma {:induction false} BelowSplits(bs: seq<nat>, b: nat)
    requires Sorted(bs)
    ensures forall i :: 0 <= i < Below(bs, b) ==> bs[i] < b
    ensures forall i :: Below(bs, b) <= i < |bs| ==> bs[i] >= b
  {
    if bs != [] {
      var init := bs[..|bs| - 1];
      BelowSplits(init, b);
      assert forall i :: 0 <= i < |init| ==> init[i] == bs[i];
    }
  }

  lemma {:induction false} BelowUnique(bs: seq<nat>, b: nat, p: nat)
    requires Sorted(bs) && p <= |bs|
    requires forall i :: 0 <= i < p ==> bs[i] < b
    requires forall i :: p <= i < |bs| ==> bs[i] >= b
    ensures Below(bs, b) == p
  {
    if bs != [] {
      BelowUnique(bs[..|bs| - 1], b, if p == |bs| then p - 1 else p);
    }
  }

  lemma {:induction false} BelowMonotone(bs: seq<nat>, b: nat, c: nat)
    requires b <= c
    ensures Below(bs, b) <= Below(bs, c)
  {
    if bs != [] {
      BelowMonotone(bs[..|bs| - 1], b, c);
    }
  }

  /** Inserting at the end of its bucket keeps the order and moves every slot above it. */
  lemma {:induction false} InsertSorted(bs: seq<nat>, b: nat)
    requires Sorted(bs)
    ensures var p := Below(bs, b + 1);
      var bs' := bs[..p] + [b] + bs[p..];
      Sorted(bs') && forall c: nat :: Below(bs', c) == if c <= b then Below(bs, c) else Below(bs, c) + 1
  {
    var p := Below(bs, b + 1);
    var bs' := bs[..p] + [b] + bs[p..];
    BelowSplits(bs, b + 1);
    assert Sorted(bs');
    forall c: nat ensures Below(bs', c) == if c <= b then Below(bs, c) else Below(bs, c) + 1 {
      var q := Below(bs, c);
      BelowSplits(bs, c);
      if c <= b {
        BelowMonotone(bs, c, b + 1);
        BelowUnique(bs', c, q);
      } else {
        BelowMonotone(bs, b + 1, c);
        BelowUnique(bs', c, q + 1);
      }
    }
  }

  lemma {:induction false} RemoveSorted(bs: seq<nat>, p: nat)
    requires Sorted(bs) && p < |bs|
    ensures var bs' := bs[..p] + bs[p + 1..];
      Sorted(bs') && forall c: nat :: Below(bs', c) == if c <= bs[p] then Below(bs, c) else Below(bs, c) - 1
  {
    var bs' := bs[..p] + bs[p + 1..];
    forall c: nat ensures Below(bs', c) == if c <= bs[p] then Below(bs, c) else Below(bs, c) - 1 {
      BelowSplits(bs, c);
      BelowUnique(bs', c, if c <= bs[p] then Below(bs, c) else Below(bs, c) - 1);
    }
  }

  // ----- the list and the slots -----

  ghost function At<K, V>(nodes: seq<Node<K, V>>, i: int): Node?<K, V> {
    if 0 <= i < |nodes| then nodes[i] else null
  }

  /** The operator & on naturals. */
  function BitAnd(a: nat, b: nat): (c: nat)
    ensures c <= b
  {
    if a == 0 || b == 0 then 0 else 2 * BitAnd(a / 2, b / 2) + a % 2 * (b % 2)
  }

  /** Bit i of a. */
  function Bit(a: nat, i: nat): nat { if i == 0 then a % 2 else Bit(a / 2, i - 1) }

  /** & works bit by bit. */
  lemma {:induction false} BitAndBits(a: nat, b: nat, i: nat)
    ensures Bit(BitAnd(a, b), i) == if Bit(a, i) == 1 && Bit(b, i) == 1 then 1 else 0
    decreases i
  {
    if a == 0 || b == 0 {
      ZeroBits(i);
    } else if i > 0 {
      BitAndBits(a / 2, b / 2, i - 1);
    }
  }

  lemma {:induction false} ZeroBits(i: nat)
    ensures Bit(0, i) == 0
  {
    if i > 0 {
      ZeroBits(i - 1);
    }
  }

  predicate PowerOf2(n: nat) { n == 1 || (n > 0 && n % 2 == 0 && PowerOf2(n / 2)) }

  /** Among a power of two of buckets the mask is the remainder. */
  lemma {:induction false} MaskIsModulo(h: nat, nb: nat)
    requires PowerOf2(nb)
    ensures Mask(h, nb) == h % nb
    decreases nb
  {
    if nb > 1 {
      var m := nb / 2;
      MaskIsModulo(h / 2, m);
      ModuloTwice(h, m);
      MaskHalves(h, m);
    }
  }

  lemma MaskHalves(h: nat, m: nat)
    requires m > 0
    ensures Mask(h, 2 * m) == 2 * Mask(h / 2, m) + h % 2
  {
    assert (2 * m - 1) / 2 == m - 1 && (2 * m - 1) % 2 == 1;
    if h == 0 {
      assert BitAnd(0, m - 1) == 0;
    }
  }

  lemma ModuloTwice(h: nat, m: nat)
    requires m > 0
    ensures 2 * (h / 2 % m) + h % 2 == h % (2 * m)
  {
    var q, r := h / 2 / m, h / 2 % m;
    assert h / 2 == q * m + r;
    assert h == 2 * (q * m + r) + h % 2;
    assert 2 * (q * m) == q * (2 * m);
    ModuloUnique(h, 2 * m, q, 2 * r + h % 2);
  }

  lemma AtLeastOnce(d: int, n: int)
    requires d >= 1 && n > 0
    ensures d * n >= n
  {
    assert (d - 1) * n >= 0;
  }

  lemma Multiples(d: int, n: int)
    requires -n < d * n < n
    ensures d == 0
  {
    if d >= 1 {
      AtLeastOnce(d, n);
    } else if d <= -1 {
      AtLeastOnce(-d, n);
    }
  }

  lemma ModuloUnique(h: nat, n: nat, q: nat, r: nat)
    requires r < n && h == q * n + r
    ensures h % n == r
  {
    var k := h / n;
    assert h == k * n + h % n;
    assert (k - q) * n == k * n - q * n;
    Multiples(k - q, n);
  }

  /** hash & (nb - 1): the bucket among nb. */
  function Mask(h: nat, nb: nat): (b: nat)
    requires nb > 0
    ensures b < nb
  {
    BitAnd(h, nb - 1)
  }

  /** The bucket numbers of the nodes. */
  ghost function BucketsOf<K, V>(nodes: seq<Node<K, V>>, hash: K -> nat, nb: nat): (bs: seq<nat>)
    requires nb > 0
    ensures |bs| == |nodes|
    ensures forall i :: 0 <= i < |bs| ==> bs[i] == Mask(hash(nodes[i].key), nb)
  {
    seq(|nodes|, i requires 0 <= i < |nodes| => Mask(hash(nodes[i].key), nb))
  }

  ghost predicate Distinct<K, V>(nodes: seq<Node<K, V>>) {
    forall i, j :: 0 <= i < j < |nodes| ==> nodes[i] != nodes[j]
  }

  ghost predicate Within<K, V>(nodes: seq<Node<K, V>>, repr: set<Node<K, V>>) {
    forall i :: 0 <= i < |nodes| ==> nodes[i] in repr
  }

  /** next and prev are the neighbours in the list, null at its ends. */
  ghost predicate Linked<K, V>(nodes: seq<Node<K, V>>, repr: set<Node<K, V>>)
    reads repr
  {
    && Within(nodes, repr)
    && (forall i {:trigger nodes[i].next} :: 0 <= i < |nodes| ==> nodes[i].next == At(nodes, i + 1))
    && (forall i {:trigger nodes[i].prev} :: 0 <= i < |nodes| ==> nodes[i].prev == At(nodes, i - 1))
  }

  /** slot b is the first node of bucket b or above, for nb buckets and the sentinel; the buffer may
      have room for more. */
  ghost predicate Slots<K, V>(slots: array<Node?<K, V>>, nb: nat, nodes: seq<Node<K, V>>, bs: seq<nat>)
    reads slots
  {
    && nb < slots.Length && |bs| == |nodes|
    && forall b :: 0 <= b <= nb ==> slots[b] == At(nodes, Below(bs, b))
  }

  ghost predicate Table<K, V>(slots: array<Node?<K, V>>, nb: nat, nodes: seq<Node<K, V>>, repr: set<Node<K, V>>, hash: K -> nat)
    reads slots, repr
  {
    && nb > 0
    && Distinct(nodes) && Linked(nodes, repr)
    && Sorted(BucketsOf(nodes, hash, nb))
    && Slots(slots, nb, nodes, BucketsOf(nodes, hash, nb))
  }

  ghost function InsertAt<T>(s: seq<T>, p: nat, x: T): seq<T>
    requires p <= |s|
  {
    s[..p] + [x] + s[p..]
  }

  /** The tail of the list, found through the last slot at or below bucket that is in use. */
  method FindTail<K, V>(slots: array<Node?<K, V>>, bucket: nat, ghost nb: nat, ghost nodes: seq<Node<K, V>>,
                            ghost repr: set<Node<K, V>>, ghost bs: seq<nat>) returns (prev: Node?<K, V>)
    requires bucket < nb && Linked(nodes, repr) && Slots(slots, nb, nodes, bs) && Sorted(bs)
    requires Below(bs, bucket + 1) == |nodes|
    ensures prev == At(nodes, |nodes| - 1)
  {
    var newbucket: nat := bucket;
    while newbucket > 0 && slots[newbucket] == null
      invariant newbucket <= bucket && Below(bs, newbucket + 1) == |nodes|
    {
      newbucket := newbucket - 1;
    }
    prev := slots[newbucket];
    ghost var i: int := Below(bs, newbucket);
    BelowSplits(bs, newbucket);
    while prev != null && prev.next != null
      invariant prev == At(nodes, i) && (i < |nodes| || nodes == [])
      decreases |nodes| - i
    {
      prev := prev.next;
      i := i + 1;
    }
  }

  lemma AtInsert<K, V>(nodes: seq<Node<K, V>>, p: nat, x: Node<K, V>, i: int)
    requires p <= |nodes|
    ensures At(InsertAt(nodes, p, x), i)
      == if i < p then At(nodes, i) else if i == p then x else At(nodes, i - 1)
  {}

  /** The pointer surgery when node goes in front of it. */
  method LinkMiddle<K, V>(node: Node<K, V>, it: Node<K, V>, ghost nodes: seq<Node<K, V>>, ghost p: nat,
                          ghost repr: set<Node<K, V>>)
    requires Linked(nodes, repr) && Distinct(nodes) && node !in repr
    requires p < |nodes| && it == nodes[p]
    modifies repr, node
    ensures Linked(InsertAt(nodes, p, node), repr + {node})
    ensures forall n :: n in repr + {node} ==> n.value == old(n.value)
  {
    node.next := it;
    node.prev := it.prev;
    it.prev := node;
    if node.prev != null {
      node.prev.next := node;
    }
    ghost var nodes' := InsertAt(nodes, p, node);
    forall i | 0 <= i < |nodes'|
      ensures nodes'[i].next == At(nodes', i + 1) && nodes'[i].prev == At(nodes', i - 1)
    {
      AtInsert(nodes, p, node, i - 1);
      AtInsert(nodes, p, node, i);
      AtInsert(nodes, p, node, i + 1);
    }
  }

  /** The pointer surgery when node goes behind the tail. */
  method LinkTail<K, V>(node: Node<K, V>, tail: Node?<K, V>, ghost nodes: seq<Node<K, V>>, ghost repr: set<Node<K, V>>)
    requires Linked(nodes, repr) && Distinct(nodes) && node !in repr
    requires tail == At(nodes, |nodes| - 1)
    modifies repr, node
    ensures Linked(InsertAt(nodes, |nodes|, node), repr + {node})
    ensures forall n :: n in repr + {node} ==> n.value == old(n.value)
  {
    node.next := null;
    node.prev := tail;
    if tail != null {
      tail.next := node;
    }
    ghost var nodes' := InsertAt(nodes, |nodes|, node);
    forall i | 0 <= i < |nodes'|
      ensures nodes'[i].next == At(nodes', i + 1) && nodes'[i].prev == At(nodes', i - 1)
    {
      AtInsert(nodes, |nodes|, node, i - 1);
      AtInsert(nodes, |nodes|, node, i);
      AtInsert(nodes, |nodes|, node, i + 1);
    }
  }

  /** How the slots read after the insertion, from how they read before. */
  lemma {:induction false} SlotAfterInsert<K, V>(nodes: seq<Node<K, V>>, bs: seq<nat>, node: Node<K, V>, bucket: nat, c: nat)
    requires |bs| == |nodes| && Sorted(bs)
    ensures var p := Below(bs, bucket + 1);
      At(InsertAt(nodes, p, node), Below(InsertAt(bs, p, bucket), c))
      == if c <= bucket && Below(bs, c) == p then node else At(nodes, Below(bs, c))
  {
    var p := Below(bs, bucket + 1);
    InsertSorted(bs, bucket);
    AtInsert(nodes, p, node, Below(InsertAt(bs, p, bucket), c));
    if c <= bucket {
      BelowMonotone(bs, c, bucket + 1);
    } else {
      BelowMonotone(bs, bucket + 1, c);
    }
  }

  /** The node becomes the first of its own bucket's slot and of the empty ones before it. */
  method Propagate<K, V>(node: Node<K, V>, it: Node?<K, V>, slots: array<Node?<K, V>>, bucket: nat,
                         ghost nb: nat, ghost nodes: seq<Node<K, V>>, ghost bs: seq<nat>)
    requires bucket < nb && Slots(slots, nb, nodes, bs) && Sorted(bs) && Distinct(nodes)
    requires it == At(nodes, Below(bs, bucket + 1)) && node !in nodes
    modifies slots
    ensures var p := Below(bs, bucket + 1);
      Slots(slots, nb, InsertAt(nodes, p, node), InsertAt(bs, p, bucket))
  {
    hide Sorted, Distinct;
    ghost var p := Below(bs, bucket + 1);
    ghost var nodes', bs' := InsertAt(nodes, p, node), InsertAt(bs, p, bucket);
    forall c: nat ensures At(nodes', Below(bs', c))
      == if c <= bucket && Below(bs, c) == p then node else At(nodes, Below(bs, c))
    {
      SlotAfterInsert(nodes, bs, node, bucket, c);
    }
    var b: nat := bucket;
    while it == slots[b]
      invariant b <= bucket
      invariant forall c: nat :: c <= b ==> slots[c] == At(nodes, Below(bs, c))
      invariant forall c: nat :: b < c <= nb ==> slots[c] == At(nodes', Below(bs', c))
      decreases b
    {
      SameSlot(nodes, bs, bucket, b);
      slots[b] := node;
      if b == 0 {
        return;
      }
      b := b - 1;
    }
    forall c: nat | c <= b
      ensures slots[c] == At(nodes', Below(bs', c))
    {
      BelowMonotone(bs, c, b);
      BelowMonotone(bs, b, bucket + 1);
    }
  }

  /** Only a slot without nodes of its own up to bucket points where slot bucket + 1 does. */
  lemma {:induction false} SameSlot<K, V>(nodes: seq<Node<K, V>>, bs: seq<nat>, bucket: nat, b: nat)
    requires |bs| == |nodes| && Distinct(nodes) && b <= bucket
    requires At(nodes, Below(bs, b)) == At(nodes, Below(bs, bucket + 1))
    ensures Below(bs, b) == Below(bs, bucket + 1)
  {
    BelowMonotone(bs, b, bucket + 1);
  }

  /** Where unordered_hash_node_insert puts a node: at the end of its bucket. */
  ghost function PlaceOf<K, V>(nodes: seq<Node<K, V>>, hash: K -> nat, nb: nat, key: K): (p: nat)
    requires nb > 0
    ensures p <= |nodes|
  {
    Below(BucketsOf(nodes, hash, nb), Mask(hash(key), nb) + 1)
  }

  lemma {:induction false} DistinctInsert<K, V>(nodes: seq<Node<K, V>>, p: nat, node: Node<K, V>)
    requires Distinct(nodes) && p <= |nodes| && node !in nodes
    ensures Distinct(InsertAt(nodes, p, node))
  {}

  lemma {:induction false} BucketsOfInsert<K, V>(nodes: seq<Node<K, V>>, hash: K -> nat, nb: nat, p: nat, node: Node<K, V>)
    requires nb > 0 && p <= |nodes|
    ensures BucketsOf(InsertAt(nodes, p, node), hash, nb)
      == InsertAt(BucketsOf(nodes, hash, nb), p, Mask(hash(node.key), nb))
  {
    hide Mask;
  }

  lemma {:induction false} BucketsOfRemove<K, V>(nodes: seq<Node<K, V>>, hash: K -> nat, nb: nat, p: nat)
    requires nb > 0 && p < |nodes|
    ensures BucketsOf(RemoveAt(nodes, p), hash, nb) == RemoveAt(BucketsOf(nodes, hash, nb), p)
  {
    hide Mask;
  }

  lemma {:induction false} TableAfterInsert<K, V>(node: Node<K, V>, slots: array<Node?<K, V>>, nb: nat,
                                                  hash: K -> nat, nodes: seq<Node<K, V>>, repr: set<Node<K, V>>)
    requires nb > 0 && Distinct(nodes) && Within(nodes, repr) && node !in repr
    requires Sorted(BucketsOf(nodes, hash, nb))
    requires var p, bs := PlaceOf(nodes, hash, nb, node.key), BucketsOf(nodes, hash, nb);
      && Linked(InsertAt(nodes, p, node), repr + {node})
      && Slots(slots, nb, InsertAt(nodes, p, node), InsertAt(bs, p, Mask(hash(node.key), nb)))
    ensures Table(slots, nb, InsertAt(nodes, PlaceOf(nodes, hash, nb, node.key), node), repr + {node}, hash)
  {
    hide Mask, BucketsOf, Below, Linked, Slots;
    var p := PlaceOf(nodes, hash, nb, node.key);
    InsertSorted(BucketsOf(nodes, hash, nb), Mask(hash(node.key), nb));
    BucketsOfInsert(nodes, hash, nb, p, node);
    DistinctInsert(nodes, p, node);
  }

  /** unordered_hash_node_insert. */
  method NodeInsert<K, V>(node: Node<K, V>, h: nat, slots: array<Node?<K, V>>, nbuckets: nat,
                          ghost hash: K -> nat, ghost nodes: seq<Node<K, V>>, ghost repr: set<Node<K, V>>)
    requires Table(slots, nbuckets, nodes, repr, hash)
    requires node !in repr && h == hash(node.key)
    modifies slots, repr, node
    ensures Table(slots, nbuckets, InsertAt(nodes, PlaceOf(nodes, hash, nbuckets, node.key), node), repr + {node}, hash)
    ensures forall n :: n in repr + {node} ==> n.value == old(n.value)
  {
    hide Mask, BucketsOf, Below;
    var bucket := Mask(h, nbuckets);
    ghost var bs := BucketsOf(nodes, hash, nbuckets);
    ghost var p := Below(bs, bucket + 1);
    var it := slots[bucket + 1];
    assert node !in nodes && it == At(nodes, p);
    hide Sorted, Distinct;
    if it != null {
      LinkMiddle(node, it, nodes, p, repr);
    } else {
      var tail := FindTail(slots, bucket, nbuckets, nodes, repr, bs);
      LinkTail(node, tail, nodes, repr);
    }
    Propagate(node, it, slots, bucket, nbuckets, nodes, bs);
    TableAfterInsert(node, slots, nbuckets, hash, nodes, repr);
  }

  ghost function RemoveAt<T>(s: seq<T>, p: nat): seq<T>
    requires p < |s|
  {
    s[..p] + s[p + 1..]
  }

  lemma AtRemove<K, V>(nodes: seq<Node<K, V>>, p: nat, i: int)
    requires p < |nodes|
    ensures At(RemoveAt(nodes, p), i) == if i < p then At(nodes, i) else At(nodes, i + 1)
  {}

  lemma {:induction false} SlotAfterRemove<K, V>(nodes: seq<Node<K, V>>, bs: seq<nat>, p: nat, c: nat)
    requires |bs| == |nodes| && Sorted(bs) && p < |nodes|
    ensures At(RemoveAt(nodes, p), Below(RemoveAt(bs, p), c))
      == if Below(bs, c) == p then At(nodes, p + 1) else At(nodes, Below(bs, c))
    ensures Below(bs, c) == p ==> c <= bs[p]
  {
    RemoveSorted(bs, p);
    BelowSplits(bs, c);
    AtRemove(nodes, p, Below(RemoveAt(bs, p), c));
  }

  /** The slots that pointed at the erased node now point at its successor. */
  method Retract<K, V>(node: Node<K, V>, next: Node?<K, V>, slots: array<Node?<K, V>>, bucket: nat,
                       ghost nb: nat, ghost nodes: seq<Node<K, V>>, ghost bs: seq<nat>, ghost p: nat)
    requires bucket <= nb && Slots(slots, nb, nodes, bs) && Sorted(bs) && Distinct(nodes)
    requires p < |nodes| && nodes[p] == node && bs[p] == bucket && next == At(nodes, p + 1)
    modifies slots
    ensures Slots(slots, nb, RemoveAt(nodes, p), RemoveAt(bs, p))
  {
    ghost var nodes', bs' := RemoveAt(nodes, p), RemoveAt(bs, p);
    forall c: nat
      ensures At(nodes', Below(bs', c)) == if Below(bs, c) == p then next else At(nodes, Below(bs, c))
      ensures Below(bs, c) == p ==> c <= bucket
      ensures c <= bucket ==> Below(bs, c) <= p
    {
      SlotAfterRemove(nodes, bs, p, c);
      BelowSplits(bs, c);
    }
    var b: nat := bucket;
    while slots[b] == node
      invariant b <= bucket
      invariant forall c: nat :: c <= b ==> slots[c] == At(nodes, Below(bs, c))
      invariant forall c: nat :: b < c <= nb ==> slots[c] == At(nodes', Below(bs', c))
      decreases b
    {
      slots[b] := next;
      if b == 0 {
        return;
      }
      b := b - 1;
    }
    forall c: nat | c <= b
      ensures slots[c] == At(nodes', Below(bs', c))
    {
      BelowMonotone(bs, c, b);
    }
  }

  method Unlink<K, V>(node: Node<K, V>, ghost nodes: seq<Node<K, V>>, ghost p: nat, ghost repr: set<Node<K, V>>)
    requires Linked(nodes, repr) && Distinct(nodes) && p < |nodes| && nodes[p] == node
    modifies repr
    ensures Linked(RemoveAt(nodes, p), repr - {node})
    ensures node.next == old(node.next) && node.prev == old(node.prev)
    ensures forall n :: n in repr ==> n.value == old(n.value)
  {
    if node.prev != null {
      node.prev.next := node.next;
    }
    if node.next != null {
      node.next.prev := node.prev;
    }
    ghost var nodes' := RemoveAt(nodes, p);
    forall i | 0 <= i < |nodes'|
      ensures nodes'[i] in repr - {node} && nodes'[i].next == At(nodes', i + 1) && nodes'[i].prev == At(nodes', i - 1)
    {
      AtRemove(nodes, p, i - 1);
      AtRemove(nodes, p, i);
      AtRemove(nodes, p, i + 1);
    }
  }

  /** unordered_hash_node_erase. */
  method NodeErase<K, V>(node: Node<K, V>, h: nat, slots: array<Node?<K, V>>, nbuckets: nat,
                         ghost hash: K -> nat, ghost nodes: seq<Node<K, V>>, ghost p: nat, ghost repr: set<Node<K, V>>)
    requires Table(slots, nbuckets, nodes, repr, hash)
    requires p < |nodes| && nodes[p] == node && h == hash(node.key)
    modifies slots, repr
    ensures Table(slots, nbuckets, RemoveAt(nodes, p), repr - {node}, hash)
    ensures forall n :: n in repr ==> n.value == old(n.value)
  {
    hide Mask, BucketsOf, Below;
    var bucket := Mask(h, nbuckets);
    ghost var bs := BucketsOf(nodes, hash, nbuckets);
    var next := node.next;
    Retract(node, next, slots, bucket, nbuckets, nodes, bs, p);
    Unlink(node, nodes, p, repr);
    RemoveSorted(bs, p);
    BucketsOfRemove(nodes, hash, nbuckets, p);
  }

  /** unordered_hash_find: the walk from a bucket's slot to the next slot sees all its nodes. */
  method NodeFind<K(==), V>(key: K, h: nat, slots: array<Node?<K, V>>, nslots: nat,
                            ghost hash: K -> nat, ghost nodes: seq<Node<K, V>>, ghost repr: set<Node<K, V>>)
    returns (found: Node?<K, V>)
    requires nslots > 0 && Table(slots, nslots - 1, nodes, repr, hash) && h == hash(key)
    ensures found != null ==> found in nodes && found.key == key
    ensures found == null ==> forall i :: 0 <= i < |nodes| ==> nodes[i].key != key
  {
    hide Mask, BucketsOf, Below;
    var bucket := Mask(h, nslots - 1);
    ghost var bs := BucketsOf(nodes, hash, nslots - 1);
    var it, end := slots[bucket], slots[bucket + 1];
    ghost var i: int := Below(bs, bucket);
    ghost var stop := Below(bs, bucket + 1);
    BelowMonotone(bs, bucket, bucket + 1);
    BelowSplits(bs, bucket);
    BelowSplits(bs, bucket + 1);
    while it != end
      invariant Below(bs, bucket) <= i <= stop && it == At(nodes, i)
      invariant forall j :: Below(bs, bucket) <= j < i ==> nodes[j].key != key
      decreases stop - i
    {
      if it.key == key {
        return it;
      }
      it := it.next;
      i := i + 1;
    }
    found := null;
    assert i == stop;
    forall j | 0 <= j < |nodes| ensures nodes[j].key != key {
      assert bs[j] == Mask(hash(nodes[j].key), nslots - 1);
    }
  }

  // ----- the map -----

  ghost predicate UniqueKeys<K, V>(nodes: seq<Node<K, V>>) {
    forall a, b :: a in nodes && b in nodes && a != b ==> a.key != b.key
  }

  /** The nodes hold exactly the entries of m. */
  ghost predicate Holds<K, V>(nodes: seq<Node<K, V>>, repr: set<Node<K, V>>, m: map<K, V>)
    reads repr
  {
    && Within(nodes, repr)
    && (forall n :: n in nodes ==> n.key in m && m[n.key] == n.value)
    && (forall k :: k in m ==> exists n :: n in nodes && n.key == k)
  }

  class UnorderedMap<K(==), V> {
    const hash: K -> nat
    var size: nat
    var slots: array<Node?<K, V>>        // m_buckets from first to capacity
    var count: nat                       // last - first: the slots in use, the sentinel among them
    ghost var nodes: seq<Node<K, V>>
    ghost var repr: set<Node<K, V>>
    ghost var contents: map<K, V>

    ghost predicate Valid()
      reads this, slots, repr
    {
      && count > 1
      && Table(slots, count - 1, nodes, repr, hash)
      && size == |nodes|
      && UniqueKeys(nodes)
      && Holds(nodes, repr, contents)
    }

    /** The buckets are a power of two, with fewer than four nodes for each slot on average. */
    ghost predicate Spread()
      reads this
    {
      count >= 9 && PowerOf2(count - 1) && size < 4 * count
    }

    constructor (hash: K -> nat)
      ensures Valid() && contents == map[] && size == 0 && count == 9 && this.hash == hash && Spread()
      ensures fresh(slots) && fresh(repr)
    {
      this.hash := hash;
      size, count := 0, 9;
      slots := new Node?<K, V>[9](_ => null);
      nodes, repr, contents := [], {}, map[];
    }

    /** The copy constructor: as many slots, and a fresh node for every node of the list. */
    constructor Copy(other: UnorderedMap<K, V>)
      requires other.Valid()
      ensures Valid() && contents == other.contents && size == other.size && hash == other.hash
      ensures fresh(slots) && fresh(repr) && count == other.count && (other.Spread() ==> Spread())
    {
      hide Table, Holds, UniqueKeys, CopiedUpTo, Distinct;
      hash := other.hash;
      size := 0;
      var length := other.count;
      slots, count := new Node?<K, V>[length](_ => null), length;
      nodes, repr, contents := [], {}, map[];
      new;
      FirstSlot(other.slots, length - 1, other.nodes, other.repr, hash);
      EmptyTable(slots, length - 1, hash);
      var it := other.slots[0];
      ghost var i := 0;
      CopyNone(other.nodes, other.contents, repr);
      while it != null
        invariant Valid() && fresh(slots) && fresh(repr) && count == length
        invariant other.Valid() && other.contents == old(other.contents) && hash == other.hash && other.count == length
        invariant i <= |other.nodes| && it == At(other.nodes, i) && size == i
        invariant CopiedUpTo(other.nodes, i, other.contents, contents)
        decreases |other.nodes| - i
      {
        NodeFacts(other.slots, length - 1, other.nodes, other.repr, hash, other.contents, i);
        var node := new Node(it.key, it.value);
        CopyNext(other.nodes, i, other.contents, contents);
        AddNode(node);
        it := it.next;
        i := i + 1;
      }
      CopiedAll(other.nodes, other.repr, other.contents, contents);
    }

    method Find(key: K) returns (it: Node?<K, V>)
      requires Valid()
      ensures it != null <==> key in contents
      ensures it != null ==> it in nodes && it in repr && it.key == key && it.value == contents[key]
    {
      it := NodeFind(key, hash(key), slots, count, hash, nodes, repr);
    }

    /** buffer_resize of the emptied bucket buffer to n null slots: in place if they fit, otherwise
        in a buffer of exactly that capacity. */
    method ResetSlots(n: nat)
      modifies `slots, `count, slots
      ensures count == n <= slots.Length && forall b :: 0 <= b < n ==> slots[b] == null
      ensures if n <= old(slots.Length) then slots == old(slots) else fresh(slots) && slots.Length == n
    {
      if n > slots.Length {
        slots := new Node?<K, V>[n](_ => null);
      }
      count := n;
      var buffer := slots;
      var b := 0;
      while b < n
        invariant b <= n <= buffer.Length && forall c :: 0 <= c < b ==> buffer[c] == null
        modifies buffer
      {
        buffer[b] := null;
        b := b + 1;
      }
    }

    /** Nothing happens unless the load is above four nodes a slot; then the slots are
        rebuilt at eight times their number by walking the old list while it is taken apart. */
    method Rehash(nbuckets: nat)
      requires Valid()
      modifies this, slots, repr
      ensures Valid() && contents == old(contents) && size == old(size)
      ensures repr <= old(repr) && (slots == old(slots) || fresh(slots))
      ensures count == if size + 1 > 4 * nbuckets then 8 * (old(count) - 1) + 1 else old(count)
      ensures size + 1 <= 4 * nbuckets ==> slots == old(slots) && slots[..] == old(slots[..]) && nodes == old(nodes)
      ensures forall n :: n in nodes <==> n in old(nodes)
      ensures forall n :: n in old(repr) ==> n.value == old(n.value)
    {
      hide Table, Linked;
      if size + 1 > 4 * nbuckets {
        FirstSlot(slots, count - 1, nodes, repr, hash);
        TableList(slots, count - 1, nodes, repr, hash);
        hide Distinct;
        var root := slots[0];
        var newNBuckets := (count - 1) * 8;
        ResetSlots(newNBuckets + 1);
        ghost var ns := Rebuild(root, slots, newNBuckets, hash, nodes, repr);
        assert Holds(nodes, repr, contents);
        ListReordered(nodes, repr, ns, contents);
        hide Holds, UniqueKeys;
        nodes, repr := ns, Elements(ns);
      }
    }

    /** insert: an existing entry wins. */
    method Insert(key: K, value: V) returns (it: Node<K, V>, inserted: bool)
      requires Valid()
      modifies this, slots, repr
      ensures Valid() && fresh(repr - old(repr)) && (slots == old(slots) || fresh(slots))
      ensures inserted <==> key !in old(contents)
      ensures contents == if inserted then old(contents)[key := value] else old(contents)
      ensures it in nodes && it.key == key && it.value == contents[key]
      ensures size == if inserted then old(size) + 1 else old(size)
      ensures count == if inserted && size + 1 > 4 * old(count) then 8 * (old(count) - 1) + 1 else old(count)
      ensures forall n :: n in old(nodes) ==> n in nodes
      ensures old(Spread()) ==> Spread()
    {
      hide Table;
      if count >= 9 {
        SpreadGrows(size, count);
      }
      var found := Find(key);
      if found != null {
        return found, false;
      }
      var node := new Node(key, value);
      var nbuckets := count;
      AddNode(node);
      Rehash(nbuckets);
      return node, true;
    }

    /** The linking half of insert. */
    method AddNode(node: Node<K, V>)
      requires Valid() && node !in repr && node.key !in contents
      modifies this, slots, repr, node
      ensures Valid() && slots == old(slots) && count == old(count) && repr == old(repr) + {node} && node in nodes
      ensures contents == old(contents)[node.key := node.value] && node.value == old(node.value)
      ensures size == old(size) + 1 && forall n :: n in old(nodes) ==> n in nodes
    {
      hide Table, PlaceOf;
      var nbuckets := count;
      ghost var p := PlaceOf(nodes, hash, nbuckets - 1, node.key);
      NodeInsert(node, hash(node.key), slots, nbuckets - 1, hash, nodes, repr);
      assert Holds(nodes, repr, contents);
      ElementsOfInsert(nodes, p, node);
      ListAfterInsert(nodes, repr, node, InsertAt(nodes, p, node), contents);
      hide Holds, UniqueKeys;
      nodes, repr, contents := InsertAt(nodes, p, node), repr + {node}, contents[node.key := node.value];
      size := size + 1;
    }

    /** The unlinking half of erase: what the nodes hold does not depend on how they are linked. */
    method Unhang(it: Node<K, V>, ghost p: nat)
      requires count > 1 && Table(slots, count - 1, nodes, repr, hash) && Holds(nodes, repr, contents)
      requires p < |nodes| && nodes[p] == it
      modifies slots, repr
      ensures Table(slots, count - 1, RemoveAt(nodes, p), repr - {it}, hash) && Holds(nodes, repr, contents)
    {
      hide Table, RemoveAt;
      NodeErase(it, hash(it.key), slots, count - 1, hash, nodes, p, repr);
    }

    /** erase through an iterator. */
    method Erase(it: Node<K, V>)
      requires Valid() && it in nodes
      modifies this, slots, repr
      ensures Valid() && repr <= old(repr) && slots == old(slots) && count == old(count)
      ensures contents == old(contents) - {it.key} && size == old(size) - 1
      ensures forall n :: n in nodes <==> n in old(nodes) && n != it
      ensures old(Spread()) ==> Spread()
    {
      hide Table, Linked, Distinct, Holds, UniqueKeys, RemoveAt, PowerOf2;
      ghost var p :| 0 <= p < |nodes| && nodes[p] == it;
      TableList(slots, count - 1, nodes, repr, hash);
      HoldsWithin(nodes, repr, contents);
      Unhang(it, p);
      ElementsOfRemove(nodes, p);
      ListAfterRemove(nodes, repr, it, RemoveAt(nodes, p), contents);
      nodes, repr, contents := RemoveAt(nodes, p), repr - {it}, contents - {it.key};
      size := size - 1;
    }

    /** clear: the walk frees every node of the list exactly once, in its order. */
    method Clear() returns (ghost freed: seq<Node<K, V>>)
      requires Valid()
      modifies this, slots
      ensures Valid() && contents == map[] && size == 0 && count == 9 && repr == {} && Spread()
      ensures slots == old(slots) || fresh(slots)
      ensures freed == old(nodes)
    {
      hide Table, Holds, UniqueKeys, Distinct;
      FirstSlot(slots, count - 1, nodes, repr, hash);
      var it := slots[0];
      freed := [];
      while it != null
        invariant |freed| <= |nodes| && it == At(nodes, |freed|) && freed == nodes[..|freed|]
        decreases |nodes| - |freed|
        modifies {}
      {
        NodeFacts(slots, count - 1, nodes, repr, hash, contents, |freed|);
        var next := it.next;
        freed := freed + [it];
        it := next;
      }
      ResetSlots(9);
      EmptyTable(slots, 8, hash);
      nodes, repr, contents := [], {}, map[];
      size := 0;
      CopyNone([], contents, repr);
    }
  }

  /** Every node lies in the bucket of its hash modulo their number, that is, not before that bucket's
      slot and before the next one's. */
  lemma {:induction false} InItsBucket<K, V>(t: UnorderedMap<K, V>, i: nat)
    requires t.Valid() && t.Spread() && i < |t.nodes|
    ensures var b := t.hash(t.nodes[i].key) % (t.count - 1);
      && t.slots[b] in t.nodes
      && (exists first :: 0 <= first <= i && t.slots[b] == t.nodes[first])
      && (exists end :: i < end <= |t.nodes| && t.slots[b + 1] == At(t.nodes, end))
  {
    hide Mask, Linked, Distinct, PowerOf2, Holds, UniqueKeys;
    var nodes := t.nodes;
    var bs := BucketsOf(nodes, t.hash, t.count - 1);
    MaskIsModulo(t.hash(nodes[i].key), t.count - 1);
    var b := bs[i];
    var first, end := Below(bs, b), Below(bs, b + 1);
    BelowSplits(bs, b);
    BelowSplits(bs, b + 1);
    assert first <= i < end;
    assert t.slots[b] == At(nodes, first) && t.slots[b + 1] == At(nodes, end);
  }

  /** The load rule keeps the number of buckets a power of two and the nodes spread. */
  lemma SpreadGrows(size: nat, count: nat)
    requires count >= 9
    ensures PowerOf2(count - 1) ==> PowerOf2(8 * (count - 1))
    ensures size < 4 * count ==> size + 1 < 4 * (8 * (count - 1) + 1)
  {
    assert PowerOf2(8 * (count - 1)) == PowerOf2(4 * (count - 1)) == PowerOf2(2 * (count - 1)) == PowerOf2(count - 1) by {
      assert 8 * (count - 1) / 2 == 4 * (count - 1) && 4 * (count - 1) / 2 == 2 * (count - 1) && 2 * (count - 1) / 2 == count - 1;
    }
  }

  lemma {:induction false} FirstSlot<K, V>(slots: array<Node?<K, V>>, nb: nat, nodes: seq<Node<K, V>>, repr: set<Node<K, V>>, hash: K -> nat)
    requires Table(slots, nb, nodes, repr, hash)
    ensures slots.Length > 1 && slots[0] == At(nodes, 0)
  {
    hide Mask;
    BelowSplits(BucketsOf(nodes, hash, nb), 0);
  }

  /** From node i on, the old list is still chained through next. */
  ghost predicate Chained<K, V>(nodes: seq<Node<K, V>>, i: nat, repr: set<Node<K, V>>)
    reads repr
  {
    && Within(nodes, repr)
    && forall j {:trigger nodes[j].next} :: i <= j < |nodes| ==> nodes[j].next == At(nodes, j + 1)
  }

  ghost function Elements<T>(s: seq<T>): set<T> { set x | x in s }

  ghost predicate SetOf<T>(s: seq<T>, t: set<T>) {
    (forall x :: x in t ==> x in s) && (forall x :: x in s ==> x in t)
  }

  /** One turn of the rebuilding loop: node i leaves the old list for the new one. */
  method Move<K, V>(root: Node<K, V>, slots: array<Node?<K, V>>, nb: nat, hash: K -> nat,
                    ghost nodes: seq<Node<K, V>>, ghost i: nat, ghost repr: set<Node<K, V>>,
                    ghost ns: seq<Node<K, V>>, ghost done: set<Node<K, V>>)
    returns (next: Node?<K, V>)
    requires i < |nodes| && root == nodes[i] && Distinct(nodes) && Chained(nodes, i, repr)
    requires Table(slots, nb, ns, done, hash)
    requires SetOf(nodes[..i], done) && done <= repr
    modifies slots, repr
    ensures next == At(nodes, i + 1) && Chained(nodes, i + 1, repr)
    ensures Table(slots, nb, InsertAt(ns, PlaceOf(ns, hash, nb, root.key), root), done + {root}, hash)
    ensures forall n :: n in repr ==> n.value == old(n.value)
  {
    next := root.next;
    root.next, root.prev := null, null;
    NodeInsert(root, hash(root.key), slots, nb, hash, ns, done);
  }

  lemma {:induction false} StartRebuild<K, V>(slots: array<Node?<K, V>>, nb: nat, hash: K -> nat,
                                              nodes: seq<Node<K, V>>, repr: set<Node<K, V>>)
    requires Linked(nodes, repr)
    requires slots.Length > nb > 0 && forall b :: 0 <= b <= nb ==> slots[b] == null
    ensures Chained(nodes, 0, repr) && Table<K, V>(slots, nb, [], {}, hash)
  {
    assert BucketsOf<K, V>([], hash, nb) == [];
  }

  method Rebuild<K, V>(first: Node?<K, V>, slots: array<Node?<K, V>>, nb: nat, hash: K -> nat,
                       ghost nodes: seq<Node<K, V>>, ghost repr: set<Node<K, V>>)
    returns (ghost ns: seq<Node<K, V>>)
    requires first == At(nodes, 0) && Distinct(nodes) && Linked(nodes, repr)
    requires slots.Length > nb > 0 && forall b :: 0 <= b <= nb ==> slots[b] == null
    modifies slots, repr
    ensures |ns| == |nodes| && forall n :: n in ns <==> n in nodes
    ensures Table(slots, nb, ns, Elements(ns), hash)
    ensures forall n :: n in repr ==> n.value == old(n.value)
  {
    hide Table, Linked, Slots, BucketsOf, Below, Mask;
    var root := first;
    ghost var done: set<Node<K, V>>, i := {}, 0;
    ns := [];
    StartRebuild(slots, nb, hash, nodes, repr);
    while root != null
      invariant i <= |nodes| && root == At(nodes, i) && |ns| == i && Chained(nodes, i, repr)
      invariant Table(slots, nb, ns, done, hash)
      invariant SetOf(nodes[..i], done) && SetOf(ns, done) && done <= repr
      invariant forall n :: n in repr ==> n.value == old(n.value)
      decreases |nodes| - i
    {
      ghost var p := PlaceOf(ns, hash, nb, root.key);
      ghost var node := root;
      root := Move(root, slots, nb, hash, nodes, i, repr, ns, done);
      SetOfNext(nodes, i, done);
      SetOfInsert(ns, p, node, done);
      ns, done := InsertAt(ns, p, node), done + {node};
      i := i + 1;
    }
    assert nodes[..i] == nodes;
    assert done == Elements(ns);
  }

  lemma {:induction false} SetOfNext<T>(s: seq<T>, i: nat, t: set<T>)
    requires i < |s| && SetOf(s[..i], t)
    ensures SetOf(s[..i + 1], t + {s[i]})
  {
    assert s[..i + 1] == s[..i] + [s[i]];
  }

  lemma {:induction false} SetOfInsert<T>(s: seq<T>, p: nat, x: T, t: set<T>)
    requires p <= |s| && SetOf(s, t)
    ensures SetOf(InsertAt(s, p, x), t + {x})
  {
    assert s == s[..p] + s[p..];
  }

  lemma {:induction false} ElementsOfInsert<T>(s: seq<T>, p: nat, x: T)
    requires p <= |s|
    ensures forall y :: y in InsertAt(s, p, x) <==> y in s || y == x
  {
    assert s == s[..p] + s[p..];
  }

  lemma {:induction false} ElementsOfRemove<K, V>(s: seq<Node<K, V>>, p: nat)
    requires p < |s| && Distinct(s)
    ensures |RemoveAt(s, p)| == |s| - 1 && forall y :: y in RemoveAt(s, p) <==> y in s && y != s[p]
  {
    assert s == s[..p] + [s[p]] + s[p + 1..];
  }

  lemma HoldsWithin<K, V>(nodes: seq<Node<K, V>>, repr: set<Node<K, V>>, m: map<K, V>)
    requires Holds(nodes, repr, m)
    ensures Within(nodes, repr)
    ensures forall n :: n in nodes ==> n in repr && n.key in m
  {
  }

  lemma {:induction false} ListAfterRemove<K, V>(nodes: seq<Node<K, V>>, repr: set<Node<K, V>>, node: Node<K, V>,
                                                 after: seq<Node<K, V>>, m: map<K, V>)
    requires Holds(nodes, repr, m) && UniqueKeys(nodes) && node in nodes
    requires forall y :: y in after <==> y in nodes && y != node
    ensures UniqueKeys(after) && Holds(after, repr - {node}, m - {node.key})
  {
    assert node in repr && forall i :: 0 <= i < |after| ==> after[i] in after;
    assert forall n :: n in nodes ==> n in repr;
    forall k | k in m - {node.key}
      ensures exists n :: n in after && n.key == k
    {
      var n :| n in nodes && n.key == k;
      assert n in after;
    }
  }

  lemma {:induction false} ListAfterInsert<K, V>(nodes: seq<Node<K, V>>, repr: set<Node<K, V>>, node: Node<K, V>,
                                                 after: seq<Node<K, V>>, m: map<K, V>)
    requires Holds(nodes, repr, m) && UniqueKeys(nodes) && node.key !in m
    requires forall y :: y in after <==> y in nodes || y == node
    ensures UniqueKeys(after) && Holds(after, repr + {node}, m[node.key := node.value])
  {
    assert forall i :: 0 <= i < |after| ==> after[i] in after;
    assert forall n :: n in nodes ==> n in repr;
    var m' := m[node.key := node.value];
    forall k | k in m'
      ensures exists n :: n in after && n.key == k
    {
      if k == node.key {
        assert node in after;
      } else {
        var n :| n in nodes && n.key == k;
        assert n in after;
      }
    }
  }

  lemma {:induction false} ListReordered<K, V>(nodes: seq<Node<K, V>>, repr: set<Node<K, V>>, after: seq<Node<K, V>>, m: map<K, V>)
    requires Holds(nodes, repr, m) && UniqueKeys(nodes) && forall y :: y in after <==> y in nodes
    ensures UniqueKeys(after) && Holds(after, Elements(after), m) && Elements(after) <= repr
  {
    assert forall i :: 0 <= i < |after| ==> after[i] in after;
    assert forall n :: n in nodes ==> n in repr;
    forall k | k in m
      ensures exists n :: n in after && n.key == k
    {
      var n :| n in nodes && n.key == k;
      assert n in after;
    }
  }

  lemma TableList<K, V>(slots: array<Node?<K, V>>, nb: nat, nodes: seq<Node<K, V>>, repr: set<Node<K, V>>, hash: K -> nat)
    requires Table(slots, nb, nodes, repr, hash)
    ensures Distinct(nodes) && Linked(nodes, repr)
  {
    hide Distinct, Linked;
  }

  lemma {:induction false} EmptyTable<K, V>(slots: array<Node?<K, V>>, nb: nat, hash: K -> nat)
    requires slots.Length > nb > 0 && forall b :: 0 <= b <= nb ==> slots[b] == null
    ensures Table<K, V>(slots, nb, [], {}, hash)
  {
    assert BucketsOf<K, V>([], hash, nb) == [];
  }

  /** part is m restricted to the keys of the first i nodes. */
  ghost predicate CopiedUpTo<K, V>(nodes: seq<Node<K, V>>, i: nat, m: map<K, V>, part: map<K, V>) {
    && i <= |nodes|
    && (forall j :: 0 <= j < i ==> nodes[j].key in part)
    && (forall k :: k in part ==> k in m && part[k] == m[k] && exists j :: 0 <= j < i && nodes[j].key == k)
  }

  lemma {:induction false} CopyNext<K, V>(nodes: seq<Node<K, V>>, i: nat, m: map<K, V>, part: map<K, V>)
    requires CopiedUpTo(nodes, i, m, part) && i < |nodes| && UniqueKeys(nodes) && Distinct(nodes)
    requires nodes[i].key in m
    ensures nodes[i].key !in part
    ensures CopiedUpTo(nodes, i + 1, m, part[nodes[i].key := m[nodes[i].key]])
  {
    forall j | 0 <= j < i ensures nodes[j].key != nodes[i].key {
      assert nodes[j] in nodes && nodes[i] in nodes;
    }
    var next := part[nodes[i].key := m[nodes[i].key]];
    forall k | k in next
      ensures k in m && next[k] == m[k] && exists j :: 0 <= j < i + 1 && nodes[j].key == k
    {
      if k == nodes[i].key {
        assert nodes[i].key == k;
      } else {
        var j :| 0 <= j < i && nodes[j].key == k;
        assert 0 <= j < i + 1;
      }
    }
  }

  lemma CopyNone<K, V>(nodes: seq<Node<K, V>>, m: map<K, V>, repr: set<Node<K, V>>)
    ensures CopiedUpTo(nodes, 0, m, map[])
    ensures UniqueKeys<K, V>([]) && Holds<K, V>([], repr, map[])
  {}

  /** What a step along a valid table's list may rely on. */
  lemma {:induction false} NodeFacts<K, V>(slots: array<Node?<K, V>>, nb: nat, nodes: seq<Node<K, V>>, repr: set<Node<K, V>>,
                                           hash: K -> nat, m: map<K, V>, i: nat)
    requires Table(slots, nb, nodes, repr, hash) && Holds(nodes, repr, m) && i < |nodes|
    ensures Distinct(nodes) && nodes[i] in repr && nodes[i].next == At(nodes, i + 1)
    ensures nodes[i].key in m && m[nodes[i].key] == nodes[i].value
  {
    hide Below, Mask, BucketsOf, Slots, Sorted;
  }

  lemma {:induction false} CopiedAll<K, V>(nodes: seq<Node<K, V>>, repr: set<Node<K, V>>, m: map<K, V>, part: map<K, V>)
    requires CopiedUpTo(nodes, |nodes|, m, part) && Holds(nodes, repr, m)
    ensures part == m
  {
    forall k | k in m ensures k in part {
      var n :| n in nodes && n.key == k;
      assert exists j :: 0 <= j < |nodes| && nodes[j] == n;
    }
  }

  // ----- runs -----

  datatype Op<K, V> = DoInsert(key: K, value: V) | DoErase(key: K) | DoFind(key: K) | DoClear

  /** The abstract map after one operation, and after a run. */
  ghost function Apply<K, V>(op: Op<K, V>, m: map<K, V>): map<K, V> {
    match op
    case DoInsert(k, v) => if k in m then m else m[k := v]
    case DoErase(k) => m - {k}
    case DoFind(_) => m
    case DoClear => map[]
  }

  ghost function ApplyAll<K, V>(ops: seq<Op<K, V>>, m: map<K, V>): map<K, V> {
    if ops == [] then m else ApplyAll(ops[1..], Apply(ops[0], m))
  }

  /** What the operation tells the client: the value that the key had, if any. */
  ghost function Answer<K, V>(op: Op<K, V>, m: map<K, V>): Option<V> {
    if op.DoClear? || op.key !in m then None else Some(m[op.key])
  }

  ghost function Answers<K, V>(ops: seq<Op<K, V>>, m: map<K, V>): seq<Option<V>> {
    if ops == [] then [] else [Answer(ops[0], m)] + Answers(ops[1..], Apply(ops[0], m))
  }

  /** The answer to operation i is the value that its key had after the operations before it. */
  lemma {:induction false} AnswerAt<K, V>(ops: seq<Op<K, V>>, m: map<K, V>, i: nat)
    requires i < |ops|
    ensures |Answers(ops, m)| == |ops|
    ensures var before := ApplyAll(ops[..i], m);
      Answers(ops, m)[i] == if !ops[i].DoClear? && ops[i].key in before then Some(before[ops[i].key]) else None
    decreases |ops|
  {
    AnswersLength(ops, m);
    if i > 0 {
      AnswerAt(ops[1..], Apply(ops[0], m), i - 1);
      assert ops[..i][0] == ops[0] && ops[..i][1..] == ops[1..][..i - 1];
    }
  }

  lemma {:induction false} AnswersLength<K, V>(ops: seq<Op<K, V>>, m: map<K, V>)
    ensures |Answers(ops, m)| == |ops|
    decreases |ops|
  {
    if ops != [] {
      AnswersLength(ops[1..], Apply(ops[0], m));
    }
  }

  /** One operation of a client; erase goes through the iterator that find returns. */
  method Perform<K(==), V>(t: UnorderedMap<K, V>, op: Op<K, V>) returns (r: Option<V>)
    requires t.Valid()
    modifies t, t.slots, t.repr
    ensures t.Valid() && t.contents == Apply(op, old(t.contents))
    ensures fresh(t.repr - old(t.repr)) && (t.slots == old(t.slots) || fresh(t.slots))
    ensures r == Answer(op, old(t.contents))
    ensures old(t.Spread()) ==> t.Spread()
  {
    r := None;
    match op
    case DoInsert(k, v) =>
      var it, inserted := t.Insert(k, v);
      r := if inserted then None else Some(it.value);
    case DoErase(k) =>
      var it := t.Find(k);
      if it != null {
        r := Some(it.value);
        t.Erase(it);
      } else {
        assert t.contents == t.contents - {k};
      }
    case DoFind(k) =>
      var it := t.Find(k);
      if it != null {
        r := Some(it.value);
      }
    case DoClear =>
      ghost var _ := t.Clear();
  }

  /** Any run of operations on the table is the same run on a finite map, with the same answers. */
  method PerformAll<K(==), V>(t: UnorderedMap<K, V>, ops: seq<Op<K, V>>) returns (results: seq<Option<V>>)
    requires t.Valid()
    modifies t, t.slots, t.repr
    ensures t.Valid() && t.contents == ApplyAll(ops, old(t.contents))
    ensures results == Answers(ops, old(t.contents))
    ensures old(t.Spread()) ==> t.Spread()
  {
    results := [];
    var i := 0;
    while i < |ops|
      invariant i <= |ops| && t.Valid() && (old(t.Spread()) ==> t.Spread())
      invariant fresh(t.repr - old(t.repr)) && (t.slots == old(t.slots) || fresh(t.slots))
      invariant ApplyAll(ops[i..], t.contents) == ApplyAll(ops, old(t.contents))
      invariant results + Answers(ops[i..], t.contents) == Answers(ops, old(t.contents))
    {
      var r := Perform(t, ops[i]);
      assert ops[i..][0] == ops[i] && ops[i..][1..] == ops[i + 1..];
      results := results + [r];
      i := i + 1;
    }
  }
}
