/** DexHelper's lazy index: methods are scanned on demand into shared caches. */
module DexIndex {
  import opened DexCode
  import opened DexFormat

  datatype Option<+T> = None | Some(value: T)

  /** A dex file: the code of each method that has any, and the sizes of its tables. */
  datatype Dex = Dex(codes: seq<Option<seq<Unit>>>, strings: nat, fields: nat)

  /** What method m names, in code order. */
  function Uses(dex: Dex, m: nat): seq<Use>
    requires m < |dex.codes| && MethodOk(dex, m)
  {
    if dex.codes[m].None? then [] else UsesFrom(dex.codes[m].value, 0)
  }

  /** The table that uses of a kind index. */
  function TableSize(dex: Dex, kind: Kind): nat {
    match kind
    case StringUse => dex.strings
    case Getting => dex.fields
    case Setting => dex.fields
    case Invoking => |dex.codes|
  }

  /** The code can be walked and names nothing outside the tables. */
  predicate MethodOk(dex: Dex, m: nat)
    requires m < |dex.codes|
  {
    dex.codes[m].Some? ==>
      && Scannable(dex.codes[m].value, 0)
      && forall u :: u in UsesFrom(dex.codes[m].value, 0) ==> u.idx < TableSize(dex, u.kind)
  }

  ghost predicate DexOk(dex: Dex) { forall m :: 0 <= m < |dex.codes| ==> MethodOk(dex, m) }

  // ----- the caches -----

  /** Per dex file: searched_methods_, the string, getting, setting and invoked caches, which list
      methods by what they name, and the invoking cache, which lists callees by method. */
  datatype Cache = Cache(scanned: seq<bool>, strings: seq<seq<nat>>, getting: seq<seq<nat>>, setting: seq<seq<nat>>,
                         invoked: seq<seq<nat>>, invoking: seq<seq<nat>>)

  function Table(c: Cache, kind: Kind): seq<seq<nat>> {
    match kind
    case StringUse => c.strings
    case Getting => c.getting
    case Setting => c.setting
    case Invoking => c.invoked
  }

  function Push(t: seq<seq<nat>>, i: nat, m: nat): (r: seq<seq<nat>>)
    requires i < |t|
  {
    t[i := t[i] + [m]]
  }

  /** emplace_back for a use in method m. */
  function Recorded(c: Cache, u: Use, m: nat): Cache
    requires u.idx < |Table(c, u.kind)| && m < |c.invoking|
  {
    match u.kind
    case StringUse => c.(strings := Push(c.strings, u.idx, m))
    case Getting => c.(getting := Push(c.getting, u.idx, m))
    case Setting => c.(setting := Push(c.setting, u.idx, m))
    case Invoking => c.(invoked := Push(c.invoked, u.idx, m), invoking := Push(c.invoking, m, u.idx))
  }

  ghost predicate Shaped(dex: Dex, c: Cache) {
    && |c.scanned| == |c.invoking| == |dex.codes|
    && forall kind: Kind :: |Table(c, kind)| == TableSize(dex, kind)
  }

  /** The entries of method m are the uses `us`: in every table as many as there are uses, and the
      callees in order. */
  ghost predicate Listed(dex: Dex, c: Cache, m: nat, us: seq<Use>)
    requires Shaped(dex, c)
  {
    && (forall kind: Kind, i: nat :: i < |Table(c, kind)| ==> multiset(Table(c, kind)[i])[m] == multiset(us)[Use(kind, i)])
    && (m < |c.invoking| ==> c.invoking[m] == Callees(us))
  }

  function Callees(us: seq<Use>): seq<nat> {
    if us == [] then []
    else Callees(us[..|us| - 1]) + if us[|us| - 1].kind == Invoking then [us[|us| - 1].idx] else []
  }

  function Known(dex: Dex, c: Cache, m: nat): seq<Use>
    requires DexOk(dex) && Shaped(dex, c)
  {
    if m < |c.scanned| && c.scanned[m] then Uses(dex, m) else []
  }

  /** The caches hold exactly the occurrences in the scanned methods. */
  ghost predicate CacheOk(dex: Dex, c: Cache) {
    DexOk(dex) && Shaped(dex, c) && forall m: nat :: Listed(dex, c, m, Known(dex, c, m))
  }

  function Fresh(dex: Dex): Cache {
    Cache(seq(|dex.codes|, _ => false), seq(dex.strings, _ => []), seq(dex.fields, _ => []), seq(dex.fields, _ => []),
          seq(|dex.codes|, _ => []), seq(|dex.codes|, _ => []))
  }

  lemma FreshOk(dex: Dex)
    requires DexOk(dex)
    ensures CacheOk(dex, Fresh(dex))
  {
  }

  // ----- scanning keeps the invariant -----

  lemma {:induction false} PushCounts(t: seq<seq<nat>>, i: nat, m: nat, j: nat, n: nat)
    requires i < |t| && j < |t|
    ensures multiset(Push(t, i, m)[j])[n] == multiset(t[j])[n] + if j == i && n == m then 1 else 0
  {
  }

  lemma {:induction false} RecordCounts(dex: Dex, c: Cache, u: Use, m: nat, kind: Kind, i: nat, n: nat)
    requires Shaped(dex, c) && m < |dex.codes| && u.idx < TableSize(dex, u.kind) && i < TableSize(dex, kind)
    ensures |Table(c, kind)| == |Table(Recorded(c, u, m), kind)| == TableSize(dex, kind)
    ensures multiset(Table(Recorded(c, u, m), kind)[i])[n]
         == multiset(Table(c, kind)[i])[n] + if u == Use(kind, i) && n == m then 1 else 0
  {
    PushCounts(Table(c, u.kind), u.idx, m, if kind == u.kind then i else u.idx, n);
  }

  lemma {:induction false} RecordShaped(dex: Dex, c: Cache, u: Use, m: nat)
    requires Shaped(dex, c) && m < |dex.codes| && u.idx < TableSize(dex, u.kind)
    ensures Shaped(dex, Recorded(c, u, m)) && Recorded(c, u, m).scanned == c.scanned
  {
    forall kind: Kind ensures |Table(Recorded(c, u, m), kind)| == TableSize(dex, kind) {
      assert |Table(c, kind)| == TableSize(dex, kind);
    }
  }

  /** Recording a use of method m adds it to m's entries and leaves the other methods' alone. */
  lemma {:induction false} RecordLists(dex: Dex, c: Cache, u: Use, m: nat, n: nat, us: seq<Use>)
    requires Shaped(dex, c) && m < |dex.codes| && u.idx < TableSize(dex, u.kind) && Listed(dex, c, n, us)
    ensures Shaped(dex, Recorded(c, u, m)) && Listed(dex, Recorded(c, u, m), n, if n == m then us + [u] else us)
  {
    RecordShaped(dex, c, u, m);
    var vs := if n == m then us + [u] else us;
    assert (us + [u])[..|us|] == us;
    forall kind: Kind, i: nat | i < |Table(Recorded(c, u, m), kind)|
      ensures multiset(Table(Recorded(c, u, m), kind)[i])[n] == multiset(vs)[Use(kind, i)]
    {
      RecordCounts(dex, c, u, m, kind, i, n);
      hide Recorded, Table, Callees;
    }
  }

  // ----- what a full scan would find -----

  /** A query's filter: IsMethodMatch for the dex file and the method. */
  type Filter = (nat, nat) -> bool

  /** Method m once per use of this kind with an index in the range. */
  function Hits(us: seq<Use>, kind: Kind, lower: nat, upper: nat, m: nat): seq<nat> {
    if us == [] then []
    else
      var u := us[|us| - 1];
      Hits(us[..|us| - 1], kind, lower, upper, m) + if u.kind == kind && lower <= u.idx < upper then [m] else []
  }

  /** Scanning the methods below n from scratch and filtering them. */
  function FullScan(dex: Dex, d: nat, match_: Filter, kind: Kind, lower: nat, upper: nat, n: nat): seq<nat>
    requires DexOk(dex) && n <= |dex.codes|
  {
    if n == 0 then []
    else
      var m := n - 1;
      FullScan(dex, d, match_, kind, lower, upper, m) + if match_(d, m) then Hits(Uses(dex, m), kind, lower, upper, m) else []
  }

  /** The matching methods of the cached lists from lower to upper, as the last loop collects them. */
  function Matching(list: seq<nat>, d: nat, match_: Filter): seq<nat> {
    if list == [] then []
    else Matching(list[..|list| - 1], d, match_) + if match_(d, list[|list| - 1]) then [list[|list| - 1]] else []
  }

  function Collected(t: seq<seq<nat>>, d: nat, match_: Filter, lower: nat, upper: nat): seq<nat>
    requires upper <= |t|
  {
    if lower >= upper then [] else Collected(t, d, match_, lower, upper - 1) + Matching(t[upper - 1], d, match_)
  }

  /** How often the uses name something in the range. */
  function InRange(us: seq<Use>, kind: Kind, lower: nat, upper: nat): nat {
    if lower >= upper then 0 else InRange(us, kind, lower, upper - 1) + multiset(us)[Use(kind, upper - 1)]
  }

  lemma {:induction false} MatchingCounts(list: seq<nat>, d: nat, match_: Filter, m: nat)
    ensures multiset(Matching(list, d, match_))[m] == if match_(d, m) then multiset(list)[m] else 0
  {
    if list != [] {
      MatchingCounts(list[..|list| - 1], d, match_, m);
      assert list == list[..|list| - 1] + [list[|list| - 1]];
    }
  }

  lemma {:induction false} CollectedCounts(dex: Dex, c: Cache, d: nat, match_: Filter, kind: Kind, lower: nat, upper: nat, m: nat,
      us: seq<Use>)
    requires Shaped(dex, c) && upper <= |Table(c, kind)| && Listed(dex, c, m, us)
    ensures multiset(Collected(Table(c, kind), d, match_, lower, upper))[m]
         == if match_(d, m) then InRange(us, kind, lower, upper) else 0
    decreases upper
  {
    if lower < upper {
      CollectedCounts(dex, c, d, match_, kind, lower, upper - 1, m, us);
      MatchingCounts(Table(c, kind)[upper - 1], d, match_, m);
    }
  }

  lemma {:induction false} InRangeStep(us: seq<Use>, u: Use, kind: Kind, lower: nat, upper: nat)
    ensures InRange(us + [u], kind, lower, upper)
         == InRange(us, kind, lower, upper) + if u.kind == kind && lower <= u.idx < upper then 1 else 0
    decreases upper
  {
    if lower < upper {
      InRangeStep(us, u, kind, lower, upper - 1);
    }
  }

  lemma {:induction false} HitsCounts(us: seq<Use>, kind: Kind, lower: nat, upper: nat, m: nat, n: nat)
    ensures multiset(Hits(us, kind, lower, upper, m))[n] == if n == m then InRange(us, kind, lower, upper) else 0
  {
    if us == [] {
      NoneInRange(kind, lower, upper);
    } else {
      HitsCounts(us[..|us| - 1], kind, lower, upper, m, n);
      InRangeStep(us[..|us| - 1], us[|us| - 1], kind, lower, upper);
      assert us == us[..|us| - 1] + [us[|us| - 1]];
    }
  }

  lemma {:induction false} NoneInRange(kind: Kind, lower: nat, upper: nat)
    ensures InRange([], kind, lower, upper) == 0
    decreases upper
  {
    if lower < upper {
      NoneInRange(kind, lower, upper - 1);
    }
  }

  lemma {:induction false} FullScanCounts(dex: Dex, d: nat, match_: Filter, kind: Kind, lower: nat, upper: nat, n: nat, m: nat)
    requires DexOk(dex) && n <= |dex.codes|
    ensures multiset(FullScan(dex, d, match_, kind, lower, upper, n))[m]
         == if m < n && match_(d, m) then InRange(Uses(dex, m), kind, lower, upper) else 0
    decreases n
  {
    hide Uses, Hits, InRange, MethodOk;
    if n > 0 {
      FullScanCounts(dex, d, match_, kind, lower, upper, n - 1, m);
      HitsCounts(Uses(dex, n - 1), kind, lower, upper, n - 1, m);
    }
  }

  /** Lazy equals full: once every matching method is scanned, the cached lists hold exactly what
      scanning everything from scratch would find, whatever else was scanned before. */
  lemma {:induction false} LazyIsFull(dex: Dex, c: Cache, d: nat, match_: Filter, kind: Kind, lower: nat, upper: nat)
    requires CacheOk(dex, c) && upper <= |Table(c, kind)|
    requires forall m :: 0 <= m < |dex.codes| && match_(d, m) ==> c.scanned[m]
    ensures multiset(Collected(Table(c, kind), d, match_, lower, upper))
         == multiset(FullScan(dex, d, match_, kind, lower, upper, |dex.codes|))
  {
    hide Collected, FullScan, Listed, Uses, InRange;
    forall m: nat ensures multiset(Collected(Table(c, kind), d, match_, lower, upper))[m]
      == multiset(FullScan(dex, d, match_, kind, lower, upper, |dex.codes|))[m]
    {
      assert Listed(dex, c, m, Known(dex, c, m));
      CollectedCounts(dex, c, d, match_, kind, lower, upper, m, Known(dex, c, m));
      FullScanCounts(dex, d, match_, kind, lower, upper, |dex.codes|, m);
      NoneInRange(kind, lower, upper);
    }
  }

  /** At any time the cached lists hold nothing that the full scan would not find. */
  lemma {:induction false} LazyWithinFull(dex: Dex, c: Cache, d: nat, match_: Filter, kind: Kind, lower: nat, upper: nat, m: nat)
    requires CacheOk(dex, c) && upper <= |Table(c, kind)|
    ensures m in Collected(Table(c, kind), d, match_, lower, upper)
      <==> m < |dex.codes| && c.scanned[m] && m in FullScan(dex, d, match_, kind, lower, upper, |dex.codes|)
  {
    hide Collected, FullScan, Listed, Uses, InRange;
    assert Listed(dex, c, m, Known(dex, c, m));
    CollectedCounts(dex, c, d, match_, kind, lower, upper, m, Known(dex, c, m));
    FullScanCounts(dex, d, match_, kind, lower, upper, |dex.codes|, m);
    NoneInRange(kind, lower, upper);
    assert m in Collected(Table(c, kind), d, match_, lower, upper)
      <==> m in multiset(Collected(Table(c, kind), d, match_, lower, upper));
    assert m in FullScan(dex, d, match_, kind, lower, upper, |dex.codes|)
      <==> m in multiset(FullScan(dex, d, match_, kind, lower, upper, |dex.codes|));
  }

  // ----- one scan -----

  /** In the middle of scanning m: the uses `done` of m are listed, other methods' as before. */
  ghost predicate Scanning(dex: Dex, c0: Cache, c: Cache, m: nat, done: seq<Use>) {
    && DexOk(dex) && Shaped(dex, c0) && Shaped(dex, c) && m < |dex.codes|
    && c.scanned == c0.scanned[m := true]
    && Listed(dex, c, m, done)
    && forall n: nat :: n != m ==> Listed(dex, c, n, Known(dex, c0, n))
  }

  lemma {:induction false} ScanBegins(dex: Dex, c: Cache, m: nat)
    requires CacheOk(dex, c) && m < |dex.codes| && !c.scanned[m]
    ensures Scanning(dex, c, c.(scanned := c.scanned[m := true]), m, [])
  {
    var c' := c.(scanned := c.scanned[m := true]);
    hide Callees, Uses, TableSize, MethodOk, Listed;
    SameTables(dex, c, c');
    forall n: nat ensures Listed(dex, c', n, Known(dex, c, n)) {
      assert Listed(dex, c, n, Known(dex, c, n));
      SameLists(dex, c, c', n, Known(dex, c, n));
    }
    assert Known(dex, c, m) == [];
  }

  lemma SameTables(dex: Dex, c: Cache, c': Cache)
    requires Shaped(dex, c) && c' == c.(scanned := c'.scanned) && |c'.scanned| == |c.scanned|
    ensures Shaped(dex, c')
  {
    forall kind: Kind ensures |Table(c', kind)| == TableSize(dex, kind) {
      assert |Table(c, kind)| == TableSize(dex, kind);
    }
  }

  lemma {:induction false} SameLists(dex: Dex, c: Cache, c': Cache, n: nat, us: seq<Use>)
    requires Shaped(dex, c) && Shaped(dex, c') && c' == c.(scanned := c'.scanned) && Listed(dex, c, n, us)
    ensures Listed(dex, c', n, us)
  {
    hide Callees;
    forall kind: Kind ensures Table(c', kind) == Table(c, kind) {
    }
  }

  lemma {:induction false} ScanRecords(dex: Dex, c0: Cache, c: Cache, m: nat, done: seq<Use>, u: Use)
    requires Scanning(dex, c0, c, m, done) && u.idx < TableSize(dex, u.kind)
    ensures u.idx < |Table(c, u.kind)| && m < |c.invoking| && Scanning(dex, c0, Recorded(c, u, m), m, done + [u])
  {
    hide Recorded, Listed, Table, TableSize, MethodOk, Uses;
    RecordShaped(dex, c, u, m);
    RecordLists(dex, c, u, m, m, done);
    forall n: nat | n != m ensures Listed(dex, Recorded(c, u, m), n, Known(dex, c0, n)) {
      RecordLists(dex, c, u, m, n, Known(dex, c0, n));
    }
  }

  lemma {:induction false} ScanEnds(dex: Dex, c0: Cache, c: Cache, m: nat)
    requires Scanning(dex, c0, c, m, if m < |dex.codes| && DexOk(dex) then Uses(dex, m) else [])
    ensures CacheOk(dex, c)
  {
    hide Listed, Uses, MethodOk, Table;
    forall n: nat ensures Listed(dex, c, n, Known(dex, c, n)) {
      assert n != m ==> Known(dex, c, n) == Known(dex, c0, n);
    }
  }

  // ----- the helper object -----

  class DexHelper {
    const dexes: seq<Dex>
    var caches: seq<Cache>

    ghost predicate Valid()
      reads this
    {
      |caches| == |dexes| && forall d :: 0 <= d < |dexes| ==> CacheOk(dexes[d], caches[d])
    }

    constructor (dexes: seq<Dex>)
      requires forall d :: 0 <= d < |dexes| ==> DexOk(dexes[d])
      ensures Valid() && this.dexes == dexes
    {
      this.dexes := dexes;
      caches := seq(|dexes|, d requires 0 <= d < |dexes| => Fresh(dexes[d]));
      new;
      forall d | 0 <= d < |dexes| ensures CacheOk(dexes[d], caches[d]) {
        FreshOk(dexes[d]);
      }
    }

    /** What ScanMethod leaves behind: the method scanned, the other files' caches untouched. */
    twostate predicate ScannedOnly(d: nat, m: nat)
      requires d < |old(caches)|
      reads this
    {
      && |caches| == |old(caches)| && caches == old(caches)[d := caches[d]]
      && m < |old(caches)[d].scanned| && caches[d].scanned == old(caches)[d].scanned[m := true]
    }

    /** emplace_back into the cache that the use belongs to. */
    method Record(d: nat, u: Use, m: nat)
      requires d < |caches| && u.idx < |Table(caches[d], u.kind)| && m < |caches[d].invoking|
      modifies this
      ensures caches == old(caches)[d := Recorded(old(caches)[d], u, m)]
    {
      caches := caches[d := Recorded(caches[d], u, m)];
    }

    /** The body of ScanMethod's loop but for the cursor: the cache entry of the instruction at p. */
    method RecordAt(d: nat, m: nat, code: seq<Unit>, p: nat, lower: nat, upper: nat, ghost c0: Cache, ghost done: seq<Use>)
        returns (matched: bool)
      requires d < |caches| == |dexes| && Scanning(dexes[d], c0, caches[d], m, done)
      requires p < |code| && Readable(code, p) && forall u :: u in UseAt(code, p) ==> u.idx < TableSize(dexes[d], u.kind)
      modifies this
      ensures |caches| == |dexes| && caches == old(caches)[d := caches[d]]
      ensures Scanning(dexes[d], c0, caches[d], m, done + UseAt(code, p))
      ensures matched == InRangeAny(UseAt(code, p), lower, upper)
    {
      hide Scanning, Recorded, Table, TableSize;
      matched := false;
      var opcode := code[p] % 0x100;
      var us: seq<Use> := [];
      if opcode == CONST_STRING || opcode == CONST_STRING_JUMBO {
        var idx := if opcode == CONST_STRING then code[p + 1] else Wide32(code[p + 1], code[p + 2]);
        matched := lower <= idx < upper;
        us := [Use(StringUse, idx)];
      }
      if IsGet(opcode) {
        us := [Use(Getting, code[p + 1])];
      }
      if IsPut(opcode) {
        us := [Use(Setting, code[p + 1])];
      }
      if IsInvoke(opcode) {
        us := [Use(Invoking, code[p + 1])];
      }
      assert us == UseAt(code, p);
      if us != [] {
        assert us == [us[0]] && us[0] in UseAt(code, p);
        ScanRecords(dexes[d], c0, caches[d], m, done, us[0]);
        Record(d, us[0], m);
      } else {
        assert done + [] == done;
      }
    }

    /** Scans a method unless it was scanned before, and tells whether this scan met a string in
        the range. */
    method ScanMethod(d: nat, m: nat, lower: nat, upper: nat) returns (matched: bool)
      requires Valid() && d < |dexes| && m < |dexes[d].codes|
      modifies this
      ensures Valid() && ScannedOnly(d, m)
      ensures matched <==> !old(caches)[d].scanned[m] && exists u :: u in Uses(dexes[d], m) && u.kind == StringUse && lower <= u.idx < upper
    {
      hide CacheOk, Scanning, InRangeAny, Readable, UseAt, Advance, TableSize;
      var dex := dexes[d];
      ghost var c0 := caches[d];
      CacheFacts(dex, c0, m);
      InRangeAnyMeans(Uses(dex, m), lower, upper);
      if caches[d].scanned[m] {
        assert caches[d].scanned[m := true] == caches[d].scanned && caches[d := caches[d]] == caches;
        return false;
      }
      caches := caches[d := caches[d].(scanned := caches[d].scanned[m := true])];
      matched := false;
      ScanBegins(dex, c0, m);
      if dex.codes[m].None? {
        NoneInRangeAny(lower, upper);
        ScanEnds(dex, c0, caches[d], m);
        return;
      }
      var code, p := dex.codes[m].value, 0;
      ghost var done := [];
      assert Uses(dex, m) == [] + UsesFrom(code, 0);
      NoneInRangeAny(lower, upper);
      while p < |code|
        invariant |caches| == |dexes| && caches == old(caches)[d := caches[d]]
        invariant Scannable(code, p) && Uses(dex, m) == done + UsesFrom(code, p)
        invariant Scanning(dex, c0, caches[d], m, done)
        invariant matched == InRangeAny(done, lower, upper)
        decreases |code| - p
      {
        assert forall u :: u in UseAt(code, p) ==> u in Uses(dex, m);
        var here := RecordAt(d, m, code, p, lower, upper, c0, done);
        matched := matched || here;
        InRangeAnyJoins(done, UseAt(code, p), lower, upper);
        done := done + UseAt(code, p);
        p := p + Advance(code, p);
      }
      assert done + [] == done;
      ScanEnds(dex, c0, caches[d], m);
      ScannedNow(dex, c0, caches[d], m, done);
    }

    /** CreateFullCache: scans everything. */
    method CreateFullCache()
      requires Valid()
      modifies this
      ensures Valid() && forall d, m :: 0 <= d < |dexes| && 0 <= m < |dexes[d].codes| ==> caches[d].scanned[m]
    {
      hide CacheOk;
      for d := 0 to |dexes|
        invariant Valid() && forall e :: 0 <= e < d ==> FullyScanned(dexes[e], caches[e])
      {
        TableFacts(dexes[d], caches[d], StringUse);
        for m := 0 to |dexes[d].codes|
          invariant Valid() && forall e :: 0 <= e < d ==> FullyScanned(dexes[e], caches[e])
          invariant |caches[d].scanned| == |dexes[d].codes| && forall n :: 0 <= n < m ==> caches[d].scanned[n]
        {
          var b := ScanMethod(d, m, 0, 0);
        }
      }
      forall d | 0 <= d < |dexes| ensures FullyScanned(dexes[d], caches[d]) && |caches[d].scanned| == |dexes[d].codes| {
        TableFacts(dexes[d], caches[d], StringUse);
      }
    }

    /** The last loop of a query: the matching entries of the cached lists, or only the first. */
    method Collect(d: nat, match_: Filter, kind: Kind, lower: nat, upper: nat, findFirst: bool) returns (part: seq<nat>)
      requires d < |caches| && upper <= |Table(caches[d], kind)|
      ensures var all := Collected(Table(caches[d], kind), d, match_, lower, upper);
        part == if findFirst && all != [] then [all[0]] else all
    {
      hide Table, Matching, Collected;
      var t := Table(caches[d], kind);
      if lower <= |t| {
        CollectedNone(t, d, match_, lower, lower);
      }
      if upper <= lower {
        CollectedNone(t, d, match_, lower, upper);
      }
      part := [];
      var s := lower;
      while s < upper
        invariant lower <= s && (s <= upper || s == lower)
        invariant part == if s <= upper then Collected(t, d, match_, lower, s) else []
        invariant findFirst ==> part == []
      {
        CollectedStep(t, d, match_, lower, s);
        var found := CollectList(t[s], d, match_, findFirst);
        part := part + found;
        s := s + 1;
        if findFirst && part != [] {
          CollectedPrefix(t, d, match_, lower, s, upper);
          return;
        }
      }
    }

    static method CollectList(list: seq<nat>, d: nat, match_: Filter, findFirst: bool) returns (part: seq<nat>)
      ensures var all := Matching(list, d, match_);
        part == if findFirst && all != [] then [all[0]] else all
    {
      part := [];
      for i := 0 to |list|
        invariant part == Matching(list[..i], d, match_)
        invariant findFirst ==> part == []
      {
        assert list[..i + 1][..i] == list[..i];
        if match_(d, list[i]) {
          part := part + [list[i]];
          if findFirst {
            MatchingPrefix(list, i + 1, d, match_);
            return;
          }
        }
      }
      assert list[..|list|] == list;
    }

    /** One dex file's share of FindMethodUsingString, for the string ids from lower to upper. */
    method StringUsers(d: nat, match_: Filter, lower: nat, upper: nat, findFirst: bool) returns (part: seq<nat>)
      requires Valid() && d < |dexes| && upper <= dexes[d].strings
      modifies this
      ensures Valid()
      ensures var full := FullScan(dexes[d], d, match_, StringUse, lower, upper, |dexes[d].codes|);
        && (!findFirst ==> multiset(part) == multiset(full))
        && (findFirst ==> |part| <= 1 && (part == [] <==> full == []) && forall m :: m in part ==> m in full)
    {
      hide CacheOk, FullScan, Collected, Uses, Table;
      var dex := dexes[d];
      TableFacts(dex, caches[d], StringUse);
      if findFirst {
        part := Collect(d, match_, StringUse, lower, upper, true);
        FirstIsSound(dex, caches[d], d, match_, StringUse, lower, upper, part);
        if part != [] {
          assert part[0] in part;
          return;
        }
      }
      var m, stopped := 0, false;
      ghost var last := 0;
      while m < |dex.codes| && !stopped
        invariant Valid() && 0 <= m <= |dex.codes|
        invariant !stopped ==> forall n :: 0 <= n < m && match_(d, n) ==> n < |caches[d].scanned| && caches[d].scanned[n]
        invariant stopped ==> findFirst && HitAt(dex, caches[d], d, match_, lower, upper, last)
      {
        CacheFacts(dex, caches[d], m);
        if !caches[d].scanned[m] && match_(d, m) {
          var matched := ScanMethod(d, m, lower, upper);
          stopped, last := matched && findFirst, m;
        }
        m := m + 1;
      }
      TableFacts(dex, caches[d], StringUse);
      part := Collect(d, match_, StringUse, lower, upper, findFirst);
      FirstIsSound(dex, caches[d], d, match_, StringUse, lower, upper, part);
      if stopped {
        HitIsFound(dex, caches[d], d, match_, lower, upper, last);
      } else {
        LazyIsFull(dex, caches[d], d, match_, StringUse, lower, upper);
      }
    }

    /** One dex file's share of FindMethodInvoked, FindMethodGettingField and
        FindMethodSettingField for the method or field id. */
    method Users(d: nat, match_: Filter, kind: Kind, id: nat, findFirst: bool) returns (part: seq<nat>)
      requires Valid() && d < |dexes| && kind != StringUse && id < TableSize(dexes[d], kind)
      modifies this
      ensures Valid()
      ensures var full := FullScan(dexes[d], d, match_, kind, id, id + 1, |dexes[d].codes|);
        && (!findFirst ==> multiset(part) == multiset(full))
        && (findFirst ==> |part| <= 1 && forall m :: m in part ==> m in full)
        && (findFirst ==> (part == [] <==> full == [] || Misses(dexes[d], old(caches[d]), d, match_, kind, id)))
        && (findFirst && part == [] && full != [] ==> ScannedOne(old(caches[d]), caches[d], d, match_))
      ensures |caches| == |old(caches)| && caches == old(caches)[d := caches[d]]
    {
      hide CacheOk, FullScan, Collected, Uses, Table, TableSize, FirstUnscanned, Misses, OnlyFirst, ScannedOne;
      var dex := dexes[d];
      ghost var c0 := caches[d];
      OnlyFirstStarts(c0, d, match_);
      TableFacts(dex, caches[d], kind);
      if findFirst && Table(caches[d], kind)[id] != [] {
        part := Collect(d, match_, kind, id, id + 1, true);
        FirstIsSound(dex, caches[d], d, match_, kind, id, id + 1, part);
        if part != [] {
          assert part[0] in part;
          MatchNotMissed(dex, c0, d, match_, kind, id);
          return;
        }
      }
      var m, stopped := 0, false;
      while m < |dex.codes| && !stopped
        invariant Valid() && 0 <= m <= |dex.codes|
        invariant |caches| == |old(caches)| && caches == old(caches)[d := caches[d]]
        invariant !stopped ==> forall n :: 0 <= n < m && match_(d, n) ==> n < |caches[d].scanned| && caches[d].scanned[n]
        invariant |caches[d].scanned| == |c0.scanned|
        invariant forall n :: 0 <= n < |c0.scanned| && caches[d].scanned[n] ==> c0.scanned[n] || match_(d, n)
        invariant forall n :: 0 <= n < |c0.scanned| && c0.scanned[n] ==> caches[d].scanned[n]
        invariant stopped ==> findFirst && id < |Table(caches[d], kind)| && Table(caches[d], kind)[id] != []
        invariant findFirst && Table(c0, kind)[id] != [] ==> OnlyFirst(c0, caches[d], d, match_, m, stopped)
      {
        CacheFacts(dex, caches[d], m);
        if !caches[d].scanned[m] && match_(d, m) {
          ghost var c1 := caches[d];
          var matched := ScanMethod(d, m, 0, 0);
          TableFacts(dex, caches[d], kind);
          stopped := findFirst && Table(caches[d], kind)[id] != [];
          if findFirst && Table(c0, kind)[id] != [] {
            ListGrows(dex, c0, caches[d], kind, id);
            FirstIsScanned(c0, c1, caches[d], d, match_, m);
          }
        } else if findFirst && Table(c0, kind)[id] != [] {
          OnlyFirstSkips(c0, caches[d], d, match_, m);
        }
        m := m + 1;
      }
      TableFacts(dex, caches[d], kind);
      part := Collect(d, match_, kind, id, id + 1, findFirst);
      FirstIsSound(dex, caches[d], d, match_, kind, id, id + 1, part);
      if !stopped {
        LazyIsFull(dex, caches[d], d, match_, kind, id, id + 1);
        if findFirst && Table(c0, kind)[id] != [] {
          NoneLeft(dex, c0, caches[d], d, match_, kind, id);
        } else {
          EmptyNotMissed(dex, c0, d, match_, kind, id);
        }
      } else if Table(c0, kind)[id] == [] {
        NewEntryMatches(dex, c0, caches[d], d, match_, kind, id);
        EmptyNotMissed(dex, c0, d, match_, kind, id);
      } else {
        StoppedScannedOne(c0, caches[d], d, match_, m);
        StoppedAtFirst(dex, c0, caches[d], d, match_, kind, id);
      }
    }

    method UsingStringIn(d: nat, match_: Filter, ranges: seq<Option<(nat, nat)>>, findFirst: bool) returns (part: seq<(nat, nat)>)
      requires Valid() && d < |dexes| == |ranges| && ranges[d].Some? && ranges[d].value.1 <= dexes[d].strings
      modifies this
      ensures Valid() && DexOk(dexes[d])
      ensures Answers(part, ScanOf(dexes, match_, StringUse, ranges, d), findFirst)
      ensures part == [] <==> ScanOf(dexes, match_, StringUse, ranges, d) == []
    {
      hide CacheOk, FullScan;
      ValidDexes();
      var list := StringUsers(d, match_, ranges[d].value.0, ranges[d].value.1, findFirst);
      ghost var scan := FullScan(dexes[d], d, match_, StringUse, ranges[d].value.0, ranges[d].value.1, |dexes[d].codes|);
      TaggedSame(d, list, scan, findFirst);
      assert multiset(list) == multiset(scan) ==> |list| == |multiset(list)| == |scan|;
      part := Tagged(d, list);
    }

    method NamingIn(d: nat, match_: Filter, kind: Kind, ids: seq<Option<nat>>, findFirst: bool) returns (part: seq<(nat, nat)>)
      requires Valid() && d < |dexes| == |ids| && kind != StringUse && ids[d].Some? && ids[d].value < TableSize(dexes[d], kind)
      modifies this
      ensures Valid() && DexOk(dexes[d])
      ensures Answers(part, ScanOf(dexes, match_, kind, Points(ids), d), findFirst)
      ensures var full := FullScan(dexes[d], d, match_, kind, ids[d].value, ids[d].value + 1, |dexes[d].codes|);
        && (findFirst ==> (part == [] <==> full == [] || Misses(dexes[d], old(caches[d]), d, match_, kind, ids[d].value)))
        && (findFirst && part == [] && full != [] ==> ScannedOne(old(caches[d]), caches[d], d, match_))
      ensures |caches| == |old(caches)| && caches == old(caches)[d := caches[d]]
    {
      hide CacheOk, FullScan, Table, TableSize, DexOk, Tagged, Misses;
      ValidDexes();
      var id := ids[d].value;
      assert Points(ids)[d] == Some((id, id + 1));
      TableFacts(dexes[d], caches[d], kind);
      var list := Users(d, match_, kind, id, findFirst);
      TaggedSame(d, list, FullScan(dexes[d], d, match_, kind, id, id + 1, |dexes[d].codes|), findFirst);
      part := Tagged(d, list);
    }

    /** GetPriority: all dex files, or those of the list that exist. */
    method GetPriority(priority: seq<nat>) returns (order: seq<nat>)
      ensures order == Priority(|dexes|, priority)
    {
      order := [];
      if priority == [] {
        for i := 0 to |dexes|
          invariant order == FirstN(i)
        {
          order := order + [i];
        }
      } else {
        for i := 0 to |priority|
          invariant order == Below(priority[..i], |dexes|)
        {
          assert priority[..i + 1][..i] == priority[..i];
          if priority[i] < |dexes| {
            order := order + [priority[i]];
          }
        }
        assert priority[..|priority|] == priority;
      }
    }

    /** FindMethodUsingString once the string is looked up: per dex file the range of string ids
        that match, if any. */
    method FindMethodUsingString(ranges: seq<Option<(nat, nat)>>, match_: Filter, priority: seq<nat>, findFirst: bool)
        returns (found: seq<(nat, nat)>)
      requires Valid() && |ranges| == |dexes|
      requires forall d :: 0 <= d < |dexes| && ranges[d].Some? ==> ranges[d].value.1 <= dexes[d].strings
      modifies this
      ensures Valid()
      ensures var full := FullScans(dexes, match_, StringUse, ranges, Priority(|dexes|, priority));
        Answers(found, full, findFirst) && (found == [] <==> full == [])
    {
      hide CacheOk, Priority, ScanOf, Answers, FullScans, DexOk;
      ValidDexes();
      found := [];
      var order := GetPriority(priority);
      NoScans(dexes, match_, StringUse, ranges, order[..0], findFirst);
      for i := 0 to |order|
        invariant Valid() && Answers(found, FullScans(dexes, match_, StringUse, ranges, order[..i]), findFirst)
        invariant findFirst ==> found == [] && FullScans(dexes, match_, StringUse, ranges, order[..i]) == []
      {
        var d := order[i];
        FullScansStep(dexes, match_, StringUse, ranges, order, i);
        if ranges[d].Some? {
          var part := UsingStringIn(d, match_, ranges, findFirst);
          AnswersAppend(found, FullScans(dexes, match_, StringUse, ranges, order[..i]), part,
                        ScanOf(dexes, match_, StringUse, ranges, d), findFirst);
          found := found + part;
          if findFirst && part != [] {
            FullScansPrefix(dexes, match_, StringUse, ranges, order, i + 1);
            AnswersPrefix(found, FullScans(dexes, match_, StringUse, ranges, order[..i + 1]),
                          FullScans(dexes, match_, StringUse, ranges, order));
            return;
          }
        } else {
          AnswersAppend(found, FullScans(dexes, match_, StringUse, ranges, order[..i]), [], [], findFirst);
        }
      }
      assert order[..|order|] == order;
      EmptyTogether(found, FullScans(dexes, match_, StringUse, ranges, order));
    }

    /** FindMethodInvoked, FindMethodGettingField and FindMethodSettingField: ids gives the method
        or field id per dex file, if it occurs there. A search for a first match finds none exactly if
        every dex file has none or misses it as often as it comes in the order. */
    method FindMethodNaming(kind: Kind, ids: seq<Option<nat>>, match_: Filter, priority: seq<nat>, findFirst: bool)
        returns (found: seq<(nat, nat)>)
      requires Valid() && |ids| == |dexes| && kind != StringUse
      requires forall d :: 0 <= d < |dexes| && ids[d].Some? ==> ids[d].value < TableSize(dexes[d], kind)
      modifies this
      ensures Valid()
      ensures var full := FullScans(dexes, match_, kind, Points(ids), Priority(|dexes|, priority));
        Answers(found, full, findFirst)
      ensures var order := Priority(|dexes|, priority);
        findFirst ==> (found == [] <==> AllBarren(dexes, old(caches), match_, kind, ids, order))
    {
      hide CacheOk, Priority, ScanOf, Answers, FullScans, DexOk, TableSize, FullScan, Misses, SteadyAt, ScannedOne;
      ValidDexes();
      found := [];
      var order := GetPriority(priority);
      NoScans(dexes, match_, kind, Points(ids), order[..0], findFirst);
      RunStarts(dexes, caches, match_, kind, ids);
      for i := 0 to |order|
        invariant Valid() && Answers(found, FullScans(dexes, match_, kind, Points(ids), order[..i]), findFirst)
        invariant findFirst ==> found == []
        invariant |caches| == |dexes|
        invariant findFirst ==> AllSteady(dexes, old(caches), caches, match_, kind, ids, order[..i])
      {
        var d := order[i];
        ghost var now := caches;
        TableFacts(dexes[d], now[d], kind);
        FullScansStep(dexes, match_, kind, Points(ids), order, i);
        if ids[d].Some? {
          var part := NamingIn(d, match_, kind, ids, findFirst);
          AnswersAppend(found, FullScans(dexes, match_, kind, Points(ids), order[..i]), part,
                        ScanOf(dexes, match_, kind, Points(ids), d), findFirst);
          found := found + part;
          if findFirst && part != [] {
            FullScansPrefix(dexes, match_, kind, Points(ids), order, i + 1);
            AnswersPrefix(found, FullScans(dexes, match_, kind, Points(ids), order[..i + 1]),
                          FullScans(dexes, match_, kind, Points(ids), order));
            HitEndsRun(dexes, old(caches), now, match_, kind, ids, order, i);
            return;
          }
          if findFirst {
            MissKeepsRun(dexes, old(caches), now, caches, match_, kind, ids, order, i);
          }
        } else {
          if findFirst {
            UnnamedKeepsRun(dexes, old(caches), now, match_, kind, ids, order, i);
          }
          AnswersAppend(found, FullScans(dexes, match_, kind, Points(ids), order[..i]), [], [], findFirst);
        }
      }
      assert order[..|order|] == order;
      if findFirst {
        SteadyIsBarren(dexes, old(caches), caches, match_, kind, ids, order);
      }
    }

    lemma ValidDexes()
      requires Valid()
      ensures forall d :: 0 <= d < |dexes| ==> DexOk(dexes[d])
    {
    }

    /** FindMethodInvoking: the matching callees of one method per dex file, in code order. */
    method FindMethodInvoking(ids: seq<Option<nat>>, match_: Filter, priority: seq<nat>, findFirst: bool)
        returns (found: seq<(nat, nat)>)
      requires Valid() && |ids| == |dexes|
      requires forall d :: 0 <= d < |dexes| && ids[d].Some? ==> ids[d].value < |dexes[d].codes|
      modifies this
      ensures Valid()
      ensures var full := Calls(dexes, match_, ids, Priority(|dexes|, priority));
        found == if findFirst && full != [] then [full[0]] else full
    {
      hide CacheOk, Priority, Calls, CallsOf, DexOk;
      ValidDexes();
      found := [];
      var order := GetPriority(priority);
      assert Calls(dexes, match_, ids, order[..0]) == [] by { NoCalls(dexes, match_, ids, order[..0]); }
      for i := 0 to |order|
        invariant Valid() && found == Calls(dexes, match_, ids, order[..i])
        invariant findFirst ==> found == []
      {
        CallsStep(dexes, match_, ids, order, i);
        var d := order[i];
        if ids[d].Some? {
          var part := CalleesIn(d, match_, ids, findFirst);
          found := found + part;
          if findFirst && part != [] {
            CallsPrefix(dexes, match_, ids, order, i + 1);
            return;
          }
        }
      }
      assert order[..|order|] == order;
    }

    method CalleesIn(d: nat, match_: Filter, ids: seq<Option<nat>>, findFirst: bool) returns (part: seq<(nat, nat)>)
      requires Valid() && d < |dexes| == |ids| && ids[d].Some? && ids[d].value < |dexes[d].codes|
      modifies this
      ensures Valid() && DexOk(dexes[d])
      ensures var all := CallsOf(dexes, match_, ids, d); part == if findFirst && all != [] then [all[0]] else all
    {
      hide CacheOk, Uses, Matching;
      ValidDexes();
      var m := ids[d].value;
      CacheFacts(dexes[d], caches[d], m);
      var b := ScanMethod(d, m, 0, 0);
      InvokingFacts(dexes[d], caches[d], m);
      var list := CollectList(caches[d].invoking[m], d, match_, findFirst);
      TaggedFirst(d, Matching(Callees(Uses(dexes[d], m)), d, match_));
      part := Tagged(d, list);
    }
  }

  // ----- several dex files -----

  /** Nothing is found in dex file d for the named id in k visits, the first in the state c of its
      cache: there is nothing, or every visit misses it. */
  ghost predicate Barren(dexes: seq<Dex>, c: Cache, match_: Filter, kind: Kind, ids: seq<Option<nat>>, d: nat, k: nat) {
    d < |ids| == |dexes| && DexOk(dexes[d])
    && (ids[d].None?
        || FullScan(dexes[d], d, match_, kind, ids[d].value, ids[d].value + 1, |dexes[d].codes|) == []
        || (|c.scanned| == |dexes[d].codes| && ids[d].value < |Table(c, kind)|
            && MissesOften(dexes[d], c, d, match_, kind, ids[d].value, k)))
  }

  ghost predicate AllBarren(dexes: seq<Dex>, caches: seq<Cache>, match_: Filter, kind: Kind, ids: seq<Option<nat>>, order: seq<nat>) {
    forall d :: d in order ==> d < |caches| && Barren(dexes, caches[d], match_, kind, ids, d, multiset(order)[d])
  }

  ghost predicate AllBelow(s: seq<nat>, n: nat) { forall i :: 0 <= i < |s| ==> s[i] < n }

  function FirstN(n: nat): (r: seq<nat>)
    ensures AllBelow(r, n)
  {
    if n == 0 then [] else FirstN(n - 1) + [n - 1]
  }

  function Below(s: seq<nat>, n: nat): (r: seq<nat>)
    ensures AllBelow(r, n)
  {
    if s == [] then [] else Below(s[..|s| - 1], n) + if s[|s| - 1] < n then [s[|s| - 1]] else []
  }

  function Priority(n: nat, priority: seq<nat>): (r: seq<nat>)
    ensures AllBelow(r, n)
  {
    if priority == [] then FirstN(n) else Below(priority, n)
  }

  function Tagged(d: nat, s: seq<nat>): (r: seq<(nat, nat)>)
    ensures |r| == |s|
  {
    if s == [] then [] else Tagged(d, s[..|s| - 1]) + [(d, s[|s| - 1])]
  }

  function ScanOf(dexes: seq<Dex>, match_: Filter, kind: Kind, ranges: seq<Option<(nat, nat)>>, d: nat): seq<(nat, nat)>
    requires d < |ranges| == |dexes| && DexOk(dexes[d])
  {
    if ranges[d].None? then []
    else Tagged(d, FullScan(dexes[d], d, match_, kind, ranges[d].value.0, ranges[d].value.1, |dexes[d].codes|))
  }

  /** The full scans of the dex files in this order. */
  function FullScans(dexes: seq<Dex>, match_: Filter, kind: Kind, ranges: seq<Option<(nat, nat)>>, order: seq<nat>): seq<(nat, nat)>
    requires |ranges| == |dexes| && (forall d :: 0 <= d < |dexes| ==> DexOk(dexes[d])) && AllBelow(order, |dexes|)
  {
    if order == [] then []
    else FullScans(dexes, match_, kind, ranges, order[..|order| - 1]) + ScanOf(dexes, match_, kind, ranges, order[|order| - 1])
  }

  /** A query answers a full scan: with the same multiset, or with at most one of its hits. */
  ghost predicate Answers(found: seq<(nat, nat)>, full: seq<(nat, nat)>, findFirst: bool) {
    if findFirst then |found| <= 1 && forall x :: x in found ==> x in full else multiset(found) == multiset(full)
  }

  lemma {:induction false} AnswersAppend(a: seq<(nat, nat)>, fa: seq<(nat, nat)>, b: seq<(nat, nat)>, fb: seq<(nat, nat)>, findFirst: bool)
    requires Answers(a, fa, findFirst) && (Answers(b, fb, findFirst) || (b == [] && fb == [])) && (findFirst ==> a == [])
    ensures Answers(a + b, fa + fb, findFirst) && a + [] == a && fa + [] == fa
  {
  }

  lemma {:induction false} EmptyTogether(found: seq<(nat, nat)>, full: seq<(nat, nat)>)
    ensures Answers(found, full, false) ==> (found == [] <==> full == [])
  {
    if multiset(found) == multiset(full) {
      assert |found| == |multiset(found)| == |full|;
    }
  }

  lemma {:induction false} AnswersPrefix(found: seq<(nat, nat)>, low: seq<(nat, nat)>, full: seq<(nat, nat)>)
    requires Answers(found, low, true) && low <= full
    ensures Answers(found, full, true) && (found != [] ==> full != [])
  {
    forall x | x in found ensures x in full {
      var i :| 0 <= i < |low| && low[i] == x;
      assert full[i] == x;
    }
    if found != [] {
      assert found[0] in found && found[0] in full;
    }
  }

  lemma {:induction false} NoScans(dexes: seq<Dex>, match_: Filter, kind: Kind, ranges: seq<Option<(nat, nat)>>, order: seq<nat>, findFirst: bool)
    requires |ranges| == |dexes| && (forall d :: 0 <= d < |dexes| ==> DexOk(dexes[d])) && order == []
    ensures FullScans(dexes, match_, kind, ranges, order) == [] && Answers([], [], findFirst)
  {
  }

  lemma {:induction false} FullScansStep(dexes: seq<Dex>, match_: Filter, kind: Kind, ranges: seq<Option<(nat, nat)>>, order: seq<nat>, i: nat)
    requires |ranges| == |dexes| && (forall d :: 0 <= d < |dexes| ==> DexOk(dexes[d])) && AllBelow(order, |dexes|) && i < |order|
    ensures FullScans(dexes, match_, kind, ranges, order[..i + 1])
         == FullScans(dexes, match_, kind, ranges, order[..i]) + ScanOf(dexes, match_, kind, ranges, order[i])
    ensures ranges[order[i]].None? ==> ScanOf(dexes, match_, kind, ranges, order[i]) == []
  {
    assert order[..i + 1][..i] == order[..i];
    hide DexOk, FullScan;
  }

  function CallsOf(dexes: seq<Dex>, match_: Filter, ids: seq<Option<nat>>, d: nat): seq<(nat, nat)>
    requires d < |ids| == |dexes| && DexOk(dexes[d]) && (ids[d].Some? ==> ids[d].value < |dexes[d].codes|)
  {
    if ids[d].None? then [] else Tagged(d, Matching(Callees(Uses(dexes[d], ids[d].value)), d, match_))
  }

  /** The matching callees of the named methods, dex file by dex file. */
  function Calls(dexes: seq<Dex>, match_: Filter, ids: seq<Option<nat>>, order: seq<nat>): seq<(nat, nat)>
    requires |ids| == |dexes| && (forall d :: 0 <= d < |dexes| ==> DexOk(dexes[d])) && AllBelow(order, |dexes|)
    requires forall d :: 0 <= d < |dexes| && ids[d].Some? ==> ids[d].value < |dexes[d].codes|
  {
    if order == [] then []
    else Calls(dexes, match_, ids, order[..|order| - 1]) + CallsOf(dexes, match_, ids, order[|order| - 1])
  }

  // ----- what these scans mean -----

  ghost predicate NamesInRange(us: seq<Use>, kind: Kind, lower: nat, upper: nat) {
    exists u :: u in us && u.kind == kind && lower <= u.idx < upper
  }

  lemma {:induction false} HitsMember(us: seq<Use>, kind: Kind, lower: nat, upper: nat, m: nat, x: nat)
    ensures x in Hits(us, kind, lower, upper, m) <==> x == m && NamesInRange(us, kind, lower, upper)
  {
    if us != [] {
      var k := |us| - 1;
      HitsMember(us[..k], kind, lower, upper, m, x);
      assert us == us[..k] + [us[k]];
    }
  }

  lemma {:induction false} FullScanMember(dex: Dex, d: nat, match_: Filter, kind: Kind, lower: nat, upper: nat, n: nat, m: nat)
    requires DexOk(dex) && n <= |dex.codes|
    ensures m in FullScan(dex, d, match_, kind, lower, upper, n) <==>
      m < n && match_(d, m) && NamesInRange(Uses(dex, m), kind, lower, upper)
  {
    hide NamesInRange, MethodOk, Hits;
    if n > 0 {
      FullScanMember(dex, d, match_, kind, lower, upper, n - 1, m);
      HitsMember(Uses(dex, n - 1), kind, lower, upper, n - 1, m);
    }
  }

  lemma {:induction false} TaggedMember(d: nat, s: seq<nat>, x: (nat, nat))
    ensures x in Tagged(d, s) <==> x.0 == d && x.1 in s
  {
    if s != [] {
      var k := |s| - 1;
      TaggedMember(d, s[..k], x);
      assert s == s[..k] + [s[k]];
    }
  }

  /** The full scan lists exactly the methods, in the dex files of the order, that match the filter and
      have an instruction of the kind that names something in the range. */
  lemma {:induction false} FullScansMean(dexes: seq<Dex>, match_: Filter, kind: Kind, ranges: seq<Option<(nat, nat)>>, order: seq<nat>, d: nat, m: nat)
    requires |ranges| == |dexes| && (forall d :: 0 <= d < |dexes| ==> DexOk(dexes[d])) && AllBelow(order, |dexes|)
    ensures (d, m) in FullScans(dexes, match_, kind, ranges, order) <==>
      d in order && ranges[d].Some? && m < |dexes[d].codes| && match_(d, m)
      && exists u :: u in Uses(dexes[d], m) && u.kind == kind && ranges[d].value.0 <= u.idx < ranges[d].value.1
    decreases |order|
  {
    hide DexOk, FullScan, Tagged, Uses;
    if order != [] {
      var k := |order| - 1;
      FullScansMean(dexes, match_, kind, ranges, order[..k], d, m);
      assert order == order[..k] + [order[k]];
      var e := order[k];
      if ranges[e].Some? {
        var hits := FullScan(dexes[e], e, match_, kind, ranges[e].value.0, ranges[e].value.1, |dexes[e].codes|);
        TaggedMember(e, hits, (d, m));
        FullScanMember(dexes[e], e, match_, kind, ranges[e].value.0, ranges[e].value.1, |dexes[e].codes|, m);
      }
    }
  }

  /** For single ids: the methods that name exactly this one. */
  lemma {:induction false} PointScansMean(dexes: seq<Dex>, match_: Filter, kind: Kind, ids: seq<Option<nat>>, order: seq<nat>, d: nat, m: nat)
    requires |ids| == |dexes| && (forall d :: 0 <= d < |dexes| ==> DexOk(dexes[d])) && AllBelow(order, |dexes|)
    ensures (d, m) in FullScans(dexes, match_, kind, Points(ids), order) <==>
      d in order && ids[d].Some? && m < |dexes[d].codes| && match_(d, m) && Use(kind, ids[d].value) in Uses(dexes[d], m)
  {
    hide FullScans, Uses, MethodOk;
    FullScansMean(dexes, match_, kind, Points(ids), order, d, m);
  }

  lemma {:induction false} MatchingMember(list: seq<nat>, d: nat, match_: Filter, x: nat)
    ensures x in Matching(list, d, match_) <==> x in list && match_(d, x)
  {
    if list != [] {
      var k := |list| - 1;
      MatchingMember(list[..k], d, match_, x);
      assert list == list[..k] + [list[k]];
    }
  }

  lemma {:induction false} CalleesMember(us: seq<Use>, x: nat)
    ensures x in Callees(us) <==> Use(Invoking, x) in us
  {
    if us != [] {
      var k := |us| - 1;
      CalleesMember(us[..k], x);
      assert us == us[..k] + [us[k]];
    }
  }

  /** The callees listed are exactly the matching methods that the named method invokes. */
  lemma {:induction false} CallsMean(dexes: seq<Dex>, match_: Filter, ids: seq<Option<nat>>, order: seq<nat>, d: nat, m: nat)
    requires |ids| == |dexes| && (forall d :: 0 <= d < |dexes| ==> DexOk(dexes[d])) && AllBelow(order, |dexes|)
    requires forall d :: 0 <= d < |dexes| && ids[d].Some? ==> ids[d].value < |dexes[d].codes|
    ensures (d, m) in Calls(dexes, match_, ids, order) <==>
      d in order && ids[d].Some? && match_(d, m) && Use(Invoking, m) in Uses(dexes[d], ids[d].value)
    decreases |order|
  {
    hide MethodOk, Matching, Callees, Tagged, Uses;
    if order != [] {
      var k := |order| - 1;
      CallsMean(dexes, match_, ids, order[..k], d, m);
      assert order == order[..k] + [order[k]];
      var e := order[k];
      if ids[e].Some? {
        var callees := Callees(Uses(dexes[e], ids[e].value));
        TaggedMember(e, Matching(callees, e, match_), (d, m));
        MatchingMember(callees, e, match_, m);
        CalleesMember(Uses(dexes[e], ids[e].value), m);
      }
    }
  }

  lemma {:induction false} FirstNIs(n: nat, i: nat)
    requires i < n
    ensures |FirstN(n)| == n && FirstN(n)[i] == i
  {
    if n > 1 {
      FirstNIs(n - 1, if i < n - 1 then i else 0);
    }
  }

  lemma {:induction false} BelowJoins(a: seq<nat>, b: seq<nat>, n: nat)
    ensures Below(a + b, n) == Below(a, n) + Below(b, n)
    decreases |b|
  {
    if b == [] {
      assert a + b == a && Below(a, n) + [] == Below(a, n);
    } else {
      var k := |b| - 1;
      BelowJoins(a, b[..k], n);
      assert (a + b)[..|a + b| - 1] == a + b[..k];
    }
  }

  /** Without a list every dex file is searched once, in order. */
  lemma {:induction false} AllInOrder(n: nat)
    ensures |Priority(n, [])| == n && forall i :: 0 <= i < n ==> Priority(n, [])[i] == i
  {
    if n > 0 {
      FirstNIs(n, 0);
    }
    forall i | 0 <= i < n ensures |FirstN(n)| == n && FirstN(n)[i] == i {
      FirstNIs(n, i);
    }
  }

  /** A list is searched as it stands, but for the numbers of no dex file. */
  lemma {:induction false} ListInOrder(n: nat, a: seq<nat>, x: nat, b: seq<nat>)
    ensures Priority(n, a + [x] + b) == Below(a, n) + (if x < n then [x] else []) + Below(b, n) && Below([], n) == []
  {
    BelowJoins(a + [x], b, n);
    BelowJoins(a, [x], n);
    OneBelow(x, n);
    hide Below;
  }

  lemma OneBelow(x: nat, n: nat)
    ensures Below([x], n) == if x < n then [x] else []
    ensures Below([], n) == []
  {
    assert [x][..0] == [];
  }

  lemma {:induction false} CallsStep(dexes: seq<Dex>, match_: Filter, ids: seq<Option<nat>>, order: seq<nat>, i: nat)
    requires |ids| == |dexes| && (forall d :: 0 <= d < |dexes| ==> DexOk(dexes[d])) && AllBelow(order, |dexes|) && i < |order|
    requires forall d :: 0 <= d < |dexes| && ids[d].Some? ==> ids[d].value < |dexes[d].codes|
    ensures Calls(dexes, match_, ids, order[..i + 1]) == Calls(dexes, match_, ids, order[..i]) + CallsOf(dexes, match_, ids, order[i])
    ensures ids[order[i]].None? ==> CallsOf(dexes, match_, ids, order[i]) == []
  {
    assert order[..i + 1][..i] == order[..i];
    hide DexOk, Uses, Matching;
  }

  lemma {:induction false} NoCalls(dexes: seq<Dex>, match_: Filter, ids: seq<Option<nat>>, order: seq<nat>)
    requires |ids| == |dexes| && (forall d :: 0 <= d < |dexes| ==> DexOk(dexes[d])) && order == []
    requires forall d :: 0 <= d < |dexes| && ids[d].Some? ==> ids[d].value < |dexes[d].codes|
    ensures Calls(dexes, match_, ids, order) == []
  {
  }

  lemma {:induction false} TaggedFirst(d: nat, s: seq<nat>)
    ensures s != [] ==> Tagged(d, s)[0] == (d, s[0]) && Tagged(d, [s[0]]) == [Tagged(d, s)[0]]
  {
    if |s| > 1 {
      TaggedFirst(d, s[..|s| - 1]);
    }
    if s != [] {
      assert [s[0]][..0] == [];
    }
  }

  /** One id as a range. */
  function Points(ids: seq<Option<nat>>): (r: seq<Option<(nat, nat)>>)
    ensures |r| == |ids|
  {
    seq(|ids|, i requires 0 <= i < |ids| => if ids[i].None? then None else Some((ids[i].value, ids[i].value + 1)))
  }

  lemma {:induction false} TaggedCounts(d: nat, s: seq<nat>, x: (nat, nat))
    ensures multiset(Tagged(d, s))[x] == if x.0 == d then multiset(s)[x.1] else 0
  {
    if s != [] {
      TaggedCounts(d, s[..|s| - 1], x);
      assert s == s[..|s| - 1] + [s[|s| - 1]];
    }
  }

  lemma {:induction false} TaggedSame(d: nat, part: seq<nat>, scan: seq<nat>, findFirst: bool)
    requires !findFirst ==> multiset(part) == multiset(scan)
    requires findFirst ==> forall m :: m in part ==> m in scan
    ensures !findFirst ==> multiset(Tagged(d, part)) == multiset(Tagged(d, scan))
    ensures findFirst ==> forall x :: x in Tagged(d, part) ==> x in Tagged(d, scan)
  {
    if findFirst {
      forall x | x in Tagged(d, part) ensures x in Tagged(d, scan) {
        TaggedCounts(d, part, x);
        TaggedCounts(d, scan, x);
        assert x in multiset(Tagged(d, part)) && x.1 in multiset(part) && x.1 in scan && x.1 in multiset(scan);
        assert x in multiset(Tagged(d, scan));
      }
    } else {
      forall x ensures multiset(Tagged(d, part))[x] == multiset(Tagged(d, scan))[x] {
        TaggedCounts(d, part, x);
        TaggedCounts(d, scan, x);
      }
    }
  }

  lemma {:induction false} FullScansPrefix(dexes: seq<Dex>, match_: Filter, kind: Kind, ranges: seq<Option<(nat, nat)>>,
      order: seq<nat>, i: nat)
    requires |ranges| == |dexes| && (forall d :: 0 <= d < |dexes| ==> DexOk(dexes[d])) && AllBelow(order, |dexes|)
    requires i <= |order|
    ensures FullScans(dexes, match_, kind, ranges, order[..i]) <= FullScans(dexes, match_, kind, ranges, order)
    decreases |order|
  {
    hide DexOk, ScanOf;
    if i == |order| {
      assert order[..i] == order;
    } else {
      FullScansPrefix(dexes, match_, kind, ranges, order[..|order| - 1], i);
      assert order[..|order| - 1][..i] == order[..i];
    }
  }

  lemma {:induction false} CallsPrefix(dexes: seq<Dex>, match_: Filter, ids: seq<Option<nat>>, order: seq<nat>, i: nat)
    requires |ids| == |dexes| && (forall d :: 0 <= d < |dexes| ==> DexOk(dexes[d])) && AllBelow(order, |dexes|)
    requires (forall d :: 0 <= d < |dexes| && ids[d].Some? ==> ids[d].value < |dexes[d].codes|) && i <= |order|
    ensures Calls(dexes, match_, ids, order[..i]) <= Calls(dexes, match_, ids, order)
    decreases |order|
  {
    hide DexOk, CallsOf;
    if i == |order| {
      assert order[..i] == order;
    } else {
      CallsPrefix(dexes, match_, ids, order[..|order| - 1], i);
      assert order[..|order| - 1][..i] == order[..i];
    }
  }

  lemma {:induction false} InvokingFacts(dex: Dex, c: Cache, m: nat)
    requires CacheOk(dex, c) && m < |dex.codes| && m < |c.scanned| && c.scanned[m]
    ensures m < |c.invoking| && MethodOk(dex, m) && c.invoking[m] == Callees(Uses(dex, m))
  {
    hide Uses, Callees;
    assert Listed(dex, c, m, Known(dex, c, m));
  }

  // ----- when a first match is missed -----

  /** The first matching method from m on that was not scanned yet. */
  function FirstUnscanned(c: Cache, d: nat, match_: Filter, m: nat): (r: nat)
    requires m <= |c.scanned|
    ensures m <= r <= |c.scanned| && forall n :: m <= n < r && match_(d, n) ==> c.scanned[n]
    ensures r < |c.scanned| ==> !c.scanned[r] && match_(d, r)
    decreases |c.scanned| - m
  {
    if m == |c.scanned| || (!c.scanned[m] && match_(d, m)) then m else FirstUnscanned(c, d, match_, m + 1)
  }

  /** A first match for this id is missed: the list has entries but none that matches, so that the
      loop stops behind the first matching method it scans, and that one does not use the id. */
  ghost predicate Misses(dex: Dex, c: Cache, d: nat, match_: Filter, kind: Kind, id: nat)
    requires DexOk(dex) && |c.scanned| == |dex.codes| && id < |Table(c, kind)|
  {
    var n := FirstUnscanned(c, d, match_, 0);
    && Table(c, kind)[id] != [] && (forall m :: m in Table(c, kind)[id] ==> !match_(d, m))
    && n < |dex.codes| && Use(kind, id) !in Uses(dex, n)
    && FullScan(dex, d, match_, kind, id, id + 1, |dex.codes|) != []
  }

  /** The matching methods from m on that were not scanned yet. */
  function Pending(scanned: seq<bool>, d: nat, match_: Filter, m: nat): (r: seq<nat>)
    requires m <= |scanned|
    ensures forall j :: 0 <= j < |r| ==> m <= r[j] < |scanned|
    decreases |scanned| - m
  {
    if m == |scanned| then []
    else (if !scanned[m] && match_(d, m) then [m] else []) + Pending(scanned, d, match_, m + 1)
  }

  ghost predicate NoneMatches(list: seq<nat>, d: nat, match_: Filter) { forall m :: m in list ==> !match_(d, m) }

  /** The first k searches for a first match miss it: each scans one more of the pending methods, and
      none of these uses the id. */
  ghost predicate MissesOften(dex: Dex, c: Cache, d: nat, match_: Filter, kind: Kind, id: nat, k: nat)
    requires DexOk(dex) && |c.scanned| == |dex.codes| && id < |Table(c, kind)|
  {
    var ms := Pending(c.scanned, d, match_, 0);
    && Table(c, kind)[id] != [] && NoneMatches(Table(c, kind)[id], d, match_)
    && k <= |ms| && (forall j :: 0 <= j < k ==> Use(kind, id) !in Uses(dex, ms[j]))
    && FullScan(dex, d, match_, kind, id, id + 1, |dex.codes|) != []
  }

  lemma {:induction false} PendingFirst(c: Cache, d: nat, match_: Filter, m: nat)
    requires m <= |c.scanned|
    ensures var n, ms := FirstUnscanned(c, d, match_, m), Pending(c.scanned, d, match_, m);
      && (ms == [] <==> n == |c.scanned|) && (ms != [] ==> ms[0] == n)
      && (ms != [] ==> Pending(c.scanned[n := true], d, match_, m) == ms[1..])
    decreases |c.scanned| - m
  {
    if m < |c.scanned| {
      if !c.scanned[m] && match_(d, m) {
        SamePending(c.scanned, c.scanned[m := true], d, match_, m + 1);
      } else {
        PendingFirst(c, d, match_, m + 1);
      }
    }
  }

  lemma {:induction false} SamePending(a: seq<bool>, b: seq<bool>, d: nat, match_: Filter, m: nat)
    requires m <= |a| == |b| && forall n :: m <= n < |a| ==> a[n] == b[n]
    ensures Pending(a, d, match_, m) == Pending(b, d, match_, m)
    decreases |a| - m
  {
    if m < |a| {
      SamePending(a, b, d, match_, m + 1);
    }
  }

  /** A search that missed scanned the first pending method and no other. */
  ghost predicate ScannedOne(before: Cache, now: Cache, d: nat, match_: Filter) {
    var n := FirstUnscanned(before, d, match_, 0);
    n < |before.scanned| && now.scanned == before.scanned[n := true]
  }

  /** How a cache c stands to what it was before j searches that missed. */
  ghost predicate Steady(dex: Dex, c0: Cache, c: Cache, d: nat, match_: Filter, kind: Kind, id: nat, j: nat) {
    && CacheOk(dex, c0) && CacheOk(dex, c) && id < TableSize(dex, kind)
    && id < |Table(c0, kind)| && id < |Table(c, kind)| && |c0.scanned| == |c.scanned| == |dex.codes|
    && var ms := Pending(c0.scanned, d, match_, 0);
       && j <= |ms| && Pending(c.scanned, d, match_, 0) == ms[j..]
       && (forall i :: 0 <= i < j ==> Use(kind, id) !in Uses(dex, ms[i]))
       && (j > 0 ==> Table(c0, kind)[id] != [] && NoneMatches(Table(c0, kind)[id], d, match_))
       && (Table(c, kind)[id] != [] <==> Table(c0, kind)[id] != [])
       && (NoneMatches(Table(c, kind)[id], d, match_) <==> NoneMatches(Table(c0, kind)[id], d, match_))
  }

  lemma {:induction false} SteadyStart(dex: Dex, c: Cache, d: nat, match_: Filter, kind: Kind, id: nat)
    requires CacheOk(dex, c) && id < TableSize(dex, kind)
    ensures Steady(dex, c, c, d, match_, kind, id, 0)
  {
    TableFacts(dex, c, kind);
    hide CacheOk, NoneMatches, Table, Uses, TableSize, DexOk;
  }

  /** The next search misses exactly if all of them do. */
  lemma {:induction false} SteadyMisses(dex: Dex, c0: Cache, c: Cache, d: nat, match_: Filter, kind: Kind, id: nat, j: nat)
    requires Steady(dex, c0, c, d, match_, kind, id, j)
    ensures DexOk(dex)
    ensures Misses(dex, c, d, match_, kind, id) <==> MissesOften(dex, c0, d, match_, kind, id, j + 1)
  {
    TableFacts(dex, c0, kind);
    hide CacheOk, Table, Uses, TableSize, DexOk, FullScan;
    PendingFirst(c, d, match_, 0);
  }

  /** And then it stands as after one search more. */
  lemma {:induction false} SteadyNext(dex: Dex, c0: Cache, c: Cache, c': Cache, d: nat, match_: Filter, kind: Kind, id: nat, j: nat)
    requires Steady(dex, c0, c, d, match_, kind, id, j) && CacheOk(dex, c')
    requires DexOk(dex) && Misses(dex, c, d, match_, kind, id) && ScannedOne(c, c', d, match_)
    ensures Steady(dex, c0, c', d, match_, kind, id, j + 1)
  {
    TableFacts(dex, c', kind);
    hide CacheOk, Table, Uses, TableSize, DexOk, FullScan, Matching;
    var n := FirstUnscanned(c, d, match_, 0);
    PendingFirst(c, d, match_, 0);
    ListGrows(dex, c, c', kind, id);
    OnlyItsUses(dex, c, c', d, match_, kind, id, n);
    forall m | m in Table(c', kind)[id] ensures !match_(d, m) {
      InMatching(Table(c', kind)[id], d, match_, m);
    }
  }

  // ----- a first match in several dex files -----

  /** Where the run over the order stands in dex file d after j visits. */
  ghost predicate SteadyAt(dexes: seq<Dex>, c0: Cache, c: Cache, match_: Filter, kind: Kind, ids: seq<Option<nat>>, d: nat, j: nat) {
    d < |ids| == |dexes| && DexOk(dexes[d])
    && (ids[d].Some? ==>
          || FullScan(dexes[d], d, match_, kind, ids[d].value, ids[d].value + 1, |dexes[d].codes|) == []
          || Steady(dexes[d], c0, c, d, match_, kind, ids[d].value, j))
  }

  ghost predicate AllSteady(dexes: seq<Dex>, before: seq<Cache>, now: seq<Cache>, match_: Filter, kind: Kind, ids: seq<Option<nat>>,
      order: seq<nat>)
  {
    |before| == |now| == |dexes|
    && forall d :: 0 <= d < |dexes| ==> SteadyAt(dexes, before[d], now[d], match_, kind, ids, d, multiset(order)[d])
  }

  lemma {:induction false} RunStarts(dexes: seq<Dex>, caches: seq<Cache>, match_: Filter, kind: Kind, ids: seq<Option<nat>>)
    requires |ids| == |caches| == |dexes| && forall d :: 0 <= d < |dexes| ==> CacheOk(dexes[d], caches[d])
    requires forall d :: 0 <= d < |dexes| && ids[d].Some? ==> ids[d].value < TableSize(dexes[d], kind)
    ensures AllSteady(dexes, caches, caches, match_, kind, ids, [])
  {
    hide CacheOk, Steady, FullScan, TableSize, DexOk;
    forall d | 0 <= d < |dexes| ensures SteadyAt(dexes, caches[d], caches[d], match_, kind, ids, d, 0) {
      TableFacts(dexes[d], caches[d], kind);
      if ids[d].Some? {
        SteadyStart(dexes[d], caches[d], d, match_, kind, ids[d].value);
      }
    }
  }

  lemma {:induction false} CountNext(order: seq<nat>, i: nat, d: nat)
    requires i < |order|
    ensures multiset(order[..i + 1])[d] == multiset(order[..i])[d] + if d == order[i] then 1 else 0
    ensures multiset(order[..i + 1])[d] <= multiset(order)[d]
  {
    assert order[..i + 1] == order[..i] + [order[i]];
    assert order == order[..i + 1] + order[i + 1..];
  }

  lemma {:induction false} UnnamedKeepsRun(dexes: seq<Dex>, before: seq<Cache>, now: seq<Cache>, match_: Filter, kind: Kind,
      ids: seq<Option<nat>>, order: seq<nat>, i: nat)
    requires i < |order| && order[i] < |ids| == |dexes| && ids[order[i]].None?
    requires AllSteady(dexes, before, now, match_, kind, ids, order[..i])
    ensures AllSteady(dexes, before, now, match_, kind, ids, order[..i + 1])
  {
    hide Steady, FullScan, DexOk;
    forall d | 0 <= d < |dexes| ensures SteadyAt(dexes, before[d], now[d], match_, kind, ids, d, multiset(order[..i + 1])[d]) {
      CountNext(order, i, d);
      assert SteadyAt(dexes, before[d], now[d], match_, kind, ids, d, multiset(order[..i])[d]);
    }
  }

  /** The visit of dex file d with cache c finds nothing. */
  ghost predicate FindsNone(dexes: seq<Dex>, c: Cache, match_: Filter, kind: Kind, ids: seq<Option<nat>>, d: nat)
    requires d < |ids| == |dexes| && DexOk(dexes[d]) && ids[d].Some?
    requires |c.scanned| == |dexes[d].codes| && ids[d].value < |Table(c, kind)|
  {
    || FullScan(dexes[d], d, match_, kind, ids[d].value, ids[d].value + 1, |dexes[d].codes|) == []
    || Misses(dexes[d], c, d, match_, kind, ids[d].value)
  }

  lemma {:induction false} MissKeepsRun(dexes: seq<Dex>, before: seq<Cache>, now: seq<Cache>, after: seq<Cache>, match_: Filter, kind: Kind,
      ids: seq<Option<nat>>, order: seq<nat>, i: nat)
    requires i < |order| && order[i] < |ids| == |dexes| == |now| && ids[order[i]].Some?
    requires AllSteady(dexes, before, now, match_, kind, ids, order[..i])
    requires var d := order[i];
      && DexOk(dexes[d]) && |now[d].scanned| == |dexes[d].codes| && ids[d].value < |Table(now[d], kind)|
      && |after| == |now| && after == now[d := after[d]] && CacheOk(dexes[d], after[d])
      && FindsNone(dexes, now[d], match_, kind, ids, d)
      && (FullScan(dexes[d], d, match_, kind, ids[d].value, ids[d].value + 1, |dexes[d].codes|) != [] ==> ScannedOne(now[d], after[d], d, match_))
    ensures AllSteady(dexes, before, after, match_, kind, ids, order[..i + 1])
  {
    hide Steady, FullScan, DexOk, CacheOk, Misses, ScannedOne;
    forall d | 0 <= d < |dexes| ensures SteadyAt(dexes, before[d], after[d], match_, kind, ids, d, multiset(order[..i + 1])[d]) {
      CountNext(order, i, d);
      assert SteadyAt(dexes, before[d], now[d], match_, kind, ids, d, multiset(order[..i])[d]);
      if d == order[i] && FullScan(dexes[d], d, match_, kind, ids[d].value, ids[d].value + 1, |dexes[d].codes|) != [] {
        SteadyNext(dexes[d], before[d], now[d], after[d], d, match_, kind, ids[d].value, multiset(order[..i])[d]);
      }
    }
  }

  lemma {:induction false} HitEndsRun(dexes: seq<Dex>, before: seq<Cache>, now: seq<Cache>, match_: Filter, kind: Kind,
      ids: seq<Option<nat>>, order: seq<nat>, i: nat)
    requires i < |order| && order[i] < |ids| == |dexes| == |now| && ids[order[i]].Some?
    requires AllSteady(dexes, before, now, match_, kind, ids, order[..i])
    requires var d := order[i];
      && DexOk(dexes[d]) && |now[d].scanned| == |dexes[d].codes| && ids[d].value < |Table(now[d], kind)|
      && !FindsNone(dexes, now[d], match_, kind, ids, d)
    ensures !AllBarren(dexes, before, match_, kind, ids, order)
  {
    hide Steady, FullScan, DexOk, CacheOk, Misses;
    var d := order[i];
    var j := multiset(order[..i])[d];
    CountNext(order, i, d);
    assert SteadyAt(dexes, before[d], now[d], match_, kind, ids, d, j);
    SteadyMisses(dexes[d], before[d], now[d], d, match_, kind, ids[d].value, j);
    assert d in order && !Barren(dexes, before[d], match_, kind, ids, d, multiset(order)[d]);
  }

  lemma {:induction false} SteadyIsBarren(dexes: seq<Dex>, before: seq<Cache>, now: seq<Cache>, match_: Filter, kind: Kind,
      ids: seq<Option<nat>>, order: seq<nat>)
    requires AllSteady(dexes, before, now, match_, kind, ids, order) && AllBelow(order, |dexes|)
    ensures AllBarren(dexes, before, match_, kind, ids, order)
  {
    hide FullScan, DexOk, CacheOk, NoneMatches, Table, Uses, TableSize;
    forall d | d in order ensures d < |before| && Barren(dexes, before[d], match_, kind, ids, d, multiset(order)[d]) {
      var i :| 0 <= i < |order| && order[i] == d;
      assert d in multiset(order);
      assert SteadyAt(dexes, before[d], now[d], match_, kind, ids, d, multiset(order)[d]);
    }
  }

  // ----- what a search has scanned -----

  /** The loop has scanned nothing below m, or only the first unscanned matching method. */
  ghost predicate OnlyFirst(c0: Cache, c: Cache, d: nat, match_: Filter, m: nat, stopped: bool) {
    && m <= |c0.scanned|
    && if stopped then ScannedOne(c0, c, d, match_)
       else c.scanned == c0.scanned && FirstUnscanned(c0, d, match_, 0) >= m
  }

  lemma OnlyFirstStarts(c: Cache, d: nat, match_: Filter)
    ensures OnlyFirst(c, c, d, match_, 0, false)
  {
  }

  lemma StoppedScannedOne(c0: Cache, c: Cache, d: nat, match_: Filter, m: nat)
    requires OnlyFirst(c0, c, d, match_, m, true)
    ensures ScannedOne(c0, c, d, match_)
  {
  }

  lemma OnlyFirstSkips(c0: Cache, c: Cache, d: nat, match_: Filter, m: nat)
    requires OnlyFirst(c0, c, d, match_, m, false) && m < |c.scanned| && (c.scanned[m] || !match_(d, m))
    ensures OnlyFirst(c0, c, d, match_, m + 1, false)
  {
  }

  lemma {:induction false} FirstIsScanned(c0: Cache, c1: Cache, c: Cache, d: nat, match_: Filter, m: nat)
    requires OnlyFirst(c0, c1, d, match_, m, false) && m < |c1.scanned| && !c1.scanned[m] && match_(d, m)
    requires c.scanned == c1.scanned[m := true]
    ensures OnlyFirst(c0, c, d, match_, m + 1, true)
  {
  }

  lemma {:induction false} EmptyNotMissed(dex: Dex, c: Cache, d: nat, match_: Filter, kind: Kind, id: nat)
    requires DexOk(dex) && |c.scanned| == |dex.codes| && id < |Table(c, kind)|
    ensures Table(c, kind)[id] == [] ==> !Misses(dex, c, d, match_, kind, id)
  {
  }

  lemma {:induction false} InMatching(list: seq<nat>, d: nat, match_: Filter, m: nat)
    ensures m in Matching(list, d, match_) <==> m in list && match_(d, m)
  {
    MatchingCounts(list, d, match_, m);
    assert m in Matching(list, d, match_) <==> m in multiset(Matching(list, d, match_));
    assert m in list <==> m in multiset(list);
  }

  lemma CollectedNone(t: seq<seq<nat>>, d: nat, match_: Filter, lower: nat, upper: nat)
    requires upper <= lower && upper <= |t|
    ensures Collected(t, d, match_, lower, upper) == []
  {
  }

  lemma CollectedStep(t: seq<seq<nat>>, d: nat, match_: Filter, lower: nat, s: nat)
    requires lower <= s < |t|
    ensures Collected(t, d, match_, lower, s + 1) == Collected(t, d, match_, lower, s) + Matching(t[s], d, match_)
  {
  }

  lemma OneList(t: seq<seq<nat>>, d: nat, match_: Filter, id: nat)
    requires id < |t|
    ensures Collected(t, d, match_, id, id + 1) == Matching(t[id], d, match_)
  {
    assert Collected(t, d, match_, id, id) == [];
  }

  lemma {:induction false} MatchNotMissed(dex: Dex, c: Cache, d: nat, match_: Filter, kind: Kind, id: nat)
    requires DexOk(dex) && |c.scanned| == |dex.codes| && id < |Table(c, kind)|
    requires Collected(Table(c, kind), d, match_, id, id + 1) != []
    ensures !Misses(dex, c, d, match_, kind, id)
  {
    hide Collected, FullScan, Uses, DexOk;
    OneList(Table(c, kind), d, match_, id);
    var m := Matching(Table(c, kind)[id], d, match_)[0];
    InMatching(Table(c, kind)[id], d, match_, m);
  }

  lemma {:induction false} NoneLeft(dex: Dex, c: Cache, c': Cache, d: nat, match_: Filter, kind: Kind, id: nat)
    requires DexOk(dex) && |c.scanned| == |dex.codes| && id < |Table(c, kind)|
    requires OnlyFirst(c, c', d, match_, |dex.codes|, false)
    ensures !Misses(dex, c, d, match_, kind, id)
  {
    hide FullScan, Uses, DexOk, Table;
  }

  lemma {:induction false} ListGrows(dex: Dex, c0: Cache, c: Cache, kind: Kind, id: nat)
    requires CacheOk(dex, c0) && CacheOk(dex, c) && id < |Table(c0, kind)| && id < |Table(c, kind)|
    requires |c.scanned| == |c0.scanned| && forall n :: 0 <= n < |c0.scanned| && c0.scanned[n] ==> c.scanned[n]
    requires Table(c0, kind)[id] != []
    ensures Table(c, kind)[id] != []
  {
    hide Uses, Callees;
    var m := Table(c0, kind)[id][0];
    assert Listed(dex, c, m, Known(dex, c, m)) && Listed(dex, c0, m, Known(dex, c0, m));
    assert m in multiset(Table(c0, kind)[id]);
    assert Known(dex, c, m) == Known(dex, c0, m);
    assert multiset(Table(c, kind)[id])[m] > 0;
  }

  /** The loop stopped behind the first matching method it scanned: what is collected is its uses. */
  lemma {:induction false} OnlyItsUses(dex: Dex, c0: Cache, c: Cache, d: nat, match_: Filter, kind: Kind, id: nat, n: nat)
    requires CacheOk(dex, c0) && CacheOk(dex, c) && id < |Table(c0, kind)| && id < |Table(c, kind)|
    requires n < |c0.scanned| && !c0.scanned[n] && match_(d, n) && c.scanned == c0.scanned[n := true]
    requires forall m :: m in Table(c0, kind)[id] ==> !match_(d, m)
    ensures n < |dex.codes|
    ensures Matching(Table(c, kind)[id], d, match_) != [] <==> Use(kind, id) in Uses(dex, n)
  {
    hide Uses, Callees, Matching;
    var list := Table(c, kind)[id];
    assert Listed(dex, c, n, Known(dex, c, n));
    assert Use(kind, id) in Uses(dex, n) <==> n in multiset(list);
    InMatching(list, d, match_, n);
    forall m | m in list && m != n ensures m in Table(c0, kind)[id] {
      assert Listed(dex, c, m, Known(dex, c, m)) && Listed(dex, c0, m, Known(dex, c0, m));
      assert Known(dex, c, m) == Known(dex, c0, m);
      assert m in multiset(Table(c0, kind)[id]);
    }
    if Matching(list, d, match_) != [] {
      InMatching(list, d, match_, Matching(list, d, match_)[0]);
    }
  }

  lemma {:induction false} StoppedAtFirst(dex: Dex, c0: Cache, c: Cache, d: nat, match_: Filter, kind: Kind, id: nat)
    requires CacheOk(dex, c0) && CacheOk(dex, c) && |c0.scanned| == |dex.codes| && id < |Table(c0, kind)| && id < |Table(c, kind)|
    requires DexOk(dex) && ScannedOne(c0, c, d, match_)
    requires Collected(Table(c0, kind), d, match_, id, id + 1) == [] && Table(c0, kind)[id] != []
    ensures var full := FullScan(dex, d, match_, kind, id, id + 1, |dex.codes|);
      Collected(Table(c, kind), d, match_, id, id + 1) == [] <==> full == [] || Misses(dex, c0, d, match_, kind, id)
  {
    hide CacheOk, Collected, FullScan, Uses, DexOk, Table, Matching;
    var n := FirstUnscanned(c0, d, match_, 0);
    OneList(Table(c0, kind), d, match_, id);
    OneList(Table(c, kind), d, match_, id);
    forall m | m in Table(c0, kind)[id] ensures !match_(d, m) {
      InMatching(Table(c0, kind)[id], d, match_, m);
    }
    OnlyItsUses(dex, c0, c, d, match_, kind, id, n);
    if Collected(Table(c, kind), d, match_, id, id + 1) != [] {
      var all := Collected(Table(c, kind), d, match_, id, id + 1);
      FirstIsSound(dex, c, d, match_, kind, id, id + 1, all);
      assert all[0] in all;
    }
  }

  // ----- a search that misses -----

  /** iget of field 0. */
  const GET_FIELD: seq<Unit> := [0x52, 0]

  /** Methods 0 and 2 read the field, method 1 is abstract. */
  const THREE_METHODS := Dex([Some(GET_FIELD), None, Some(GET_FIELD)], 0, 1)

  /** The caches after method 0 was scanned. */
  const FIRST_SCANNED := Cache([true, false, false], [], [[0]], [[]], [[], [], []], [[], [], []])

  lemma ThreeUses()
    ensures DexOk(THREE_METHODS)
    ensures Uses(THREE_METHODS, 0) == Uses(THREE_METHODS, 2) == [Use(Getting, 0)] && Uses(THREE_METHODS, 1) == []
  {
    assert Scannable(GET_FIELD, 2) && UsesFrom(GET_FIELD, 2) == [];
    assert UseAt(GET_FIELD, 0) == [Use(Getting, 0)] && Advance(GET_FIELD, 0) == 2;
    assert UsesFrom(GET_FIELD, 0) == [Use(Getting, 0)];
  }

  lemma FirstScannedOk()
    ensures CacheOk(THREE_METHODS, FIRST_SCANNED)
  {
    var dex, c := THREE_METHODS, FIRST_SCANNED;
    ThreeUses();
    assert Shaped(dex, c);
    hide DexOk, Uses;
    forall m: nat ensures Listed(dex, c, m, Known(dex, c, m)) {
      assert Known(dex, c, m) == if m == 0 then [Use(Getting, 0)] else [];
      FirstListed(m);
    }
  }

  lemma FirstListed(m: nat)
    requires Shaped(THREE_METHODS, FIRST_SCANNED)
    ensures Listed(THREE_METHODS, FIRST_SCANNED, m, if m == 0 then [Use(Getting, 0)] else [])
  {
    hide Shaped;
    assert Callees([Use(Getting, 0)][..0]) == [];
  }

  /** Once method 0 is scanned, a search for the first reader of the field among the later methods
      stops behind method 1 and does not find method 2. */
  lemma MissHappens()
    ensures CacheOk(THREE_METHODS, FIRST_SCANNED)
    ensures Misses(THREE_METHODS, FIRST_SCANNED, 0, (d, m) => m >= 1, Getting, 0)
  {
    var dex, c, match_: Filter := THREE_METHODS, FIRST_SCANNED, (d, m) => m >= 1;
    FirstScannedOk();
    ThreeUses();
    hide DexOk, Uses, CacheOk;
    assert FirstUnscanned(c, 0, match_, 0) == FirstUnscanned(c, 0, match_, 1) == 1;
    assert Hits([Use(Getting, 0)], Getting, 0, 1, 2) == [2] by { assert [Use(Getting, 0)][..0] == []; }
    assert 2 in FullScan(dex, 0, match_, Getting, 0, 1, 3);
  }

  // ----- facts for the queries -----

  ghost predicate FullyScanned(dex: Dex, c: Cache) {
    |c.scanned| == |dex.codes| && forall m :: 0 <= m < |c.scanned| ==> c.scanned[m]
  }

  ghost predicate HitAt(dex: Dex, c: Cache, d: nat, match_: Filter, lower: nat, upper: nat, n: nat) {
    && n < |dex.codes| && match_(d, n) && n < |c.scanned| && c.scanned[n] && MethodOk(dex, n)
    && InRangeAny(Uses(dex, n), lower, upper)
  }

  lemma {:induction false} TableFacts(dex: Dex, c: Cache, kind: Kind)
    requires CacheOk(dex, c)
    ensures DexOk(dex) && |Table(c, kind)| == TableSize(dex, kind) && |c.scanned| == |dex.codes|
  {
  }

  lemma {:induction false} MatchingPrefix(list: seq<nat>, i: nat, d: nat, match_: Filter)
    requires i <= |list|
    ensures Matching(list[..i], d, match_) <= Matching(list, d, match_)
    decreases |list|
  {
    if i == |list| {
      assert list[..i] == list;
    } else {
      MatchingPrefix(list[..|list| - 1], i, d, match_);
      assert list[..|list| - 1][..i] == list[..i];
    }
  }

  lemma {:induction false} CollectedPrefix(t: seq<seq<nat>>, d: nat, match_: Filter, lower: nat, mid: nat, upper: nat)
    requires lower <= mid <= upper <= |t|
    ensures Collected(t, d, match_, lower, mid) <= Collected(t, d, match_, lower, upper)
    decreases upper
  {
    if mid < upper {
      assert Collected(t, d, match_, lower, upper - 1) <= Collected(t, d, match_, lower, upper);
      hide Collected;
      CollectedPrefix(t, d, match_, lower, mid, upper - 1);
    }
  }

  /** Whatever Collect returns, the full scan finds too. */
  lemma {:induction false} FirstIsSound(dex: Dex, c: Cache, d: nat, match_: Filter, kind: Kind, lower: nat, upper: nat, part: seq<nat>)
    requires CacheOk(dex, c) && upper <= |Table(c, kind)|
    requires var all := Collected(Table(c, kind), d, match_, lower, upper);
      part == all || (all != [] && part == [all[0]])
    ensures forall m :: m in part ==> m in FullScan(dex, d, match_, kind, lower, upper, |dex.codes|)
  {
    TableFacts(dex, c, kind);
    hide Collected, FullScan, CacheOk;
    forall m | m in part ensures m in FullScan(dex, d, match_, kind, lower, upper, |dex.codes|) {
      LazyWithinFull(dex, c, d, match_, kind, lower, upper, m);
    }
  }

  lemma {:induction false} SomeInRange(us: seq<Use>, u: Use, lower: nat, upper: nat)
    requires u in us && lower <= u.idx < upper
    ensures InRange(us, u.kind, lower, upper) > 0
    decreases upper
  {
    if u.idx < upper - 1 {
      SomeInRange(us, u, lower, upper - 1);
    }
  }

  /** A scanned matching method with a string in the range is among the collected. */
  lemma {:induction false} HitIsFound(dex: Dex, c: Cache, d: nat, match_: Filter, lower: nat, upper: nat, n: nat)
    requires CacheOk(dex, c) && upper <= |Table(c, StringUse)| && n < |dex.codes| && match_(d, n) && c.scanned[n]
    requires InRangeAny(Uses(dex, n), lower, upper)
    ensures n in Collected(Table(c, StringUse), d, match_, lower, upper)
    ensures n in FullScan(dex, d, match_, StringUse, lower, upper, |dex.codes|)
  {
    hide Collected, FullScan, Listed, Uses, InRange;
    var u :| u in Uses(dex, n) && u.kind == StringUse && lower <= u.idx < upper;
    SomeInRange(Uses(dex, n), u, lower, upper);
    FullScanCounts(dex, d, match_, StringUse, lower, upper, |dex.codes|, n);
    assert n in multiset(FullScan(dex, d, match_, StringUse, lower, upper, |dex.codes|));
    LazyWithinFull(dex, c, d, match_, StringUse, lower, upper, n);
  }

  /** If a list was empty and only matching methods were scanned since, its first entry matches. */
  lemma {:induction false} NewEntryMatches(dex: Dex, c0: Cache, c: Cache, d: nat, match_: Filter, kind: Kind, id: nat)
    requires CacheOk(dex, c0) && CacheOk(dex, c) && id < |Table(c0, kind)| && id < |Table(c, kind)|
    requires Table(c0, kind)[id] == [] && Table(c, kind)[id] != []
    requires forall n :: 0 <= n < |dex.codes| && c.scanned[n] ==> c0.scanned[n] || match_(d, n)
    ensures Collected(Table(c, kind), d, match_, id, id + 1) != []
    ensures FullScan(dex, d, match_, kind, id, id + 1, |dex.codes|) != []
  {
    hide Collected, FullScan, Uses, InRange, Callees;
    var list := Table(c, kind)[id];
    var m := list[0];
    assert Listed(dex, c, m, Known(dex, c, m)) && Listed(dex, c0, m, Known(dex, c0, m));
    assert m in multiset(list);
    assert multiset(Table(c0, kind)[id])[m] == 0;
    assert match_(d, m);
    CollectedCounts(dex, c, d, match_, kind, id, id + 1, m, Known(dex, c, m));
    assert Use(kind, id) in Known(dex, c, m);
    SomeInRange(Known(dex, c, m), Use(kind, id), id, id + 1);
    assert m in multiset(Collected(Table(c, kind), d, match_, id, id + 1));
    LazyWithinFull(dex, c, d, match_, kind, id, id + 1, m);
  }

  /** Some use is a string in the range. */
  ghost predicate InRangeAny(us: seq<Use>, lower: nat, upper: nat) {
    exists u :: u in us && u.kind == StringUse && lower <= u.idx < upper
  }

  lemma InRangeAnyMeans(us: seq<Use>, lower: nat, upper: nat)
    ensures InRangeAny(us, lower, upper) <==> exists u :: u in us && u.kind == StringUse && lower <= u.idx < upper
  {
  }

  lemma NoneInRangeAny(lower: nat, upper: nat)
    ensures !InRangeAny([], lower, upper)
  {
  }

  lemma {:induction false} InRangeAnyJoins(a: seq<Use>, b: seq<Use>, lower: nat, upper: nat)
    ensures InRangeAny(a + b, lower, upper) <==> InRangeAny(a, lower, upper) || InRangeAny(b, lower, upper)
  {
  }

  lemma {:induction false} CacheFacts(dex: Dex, c: Cache, m: nat)
    requires CacheOk(dex, c) && m < |dex.codes|
    ensures DexOk(dex) && |c.scanned| == |dex.codes| && MethodOk(dex, m)
    ensures forall u :: u in Uses(dex, m) ==> u.idx < TableSize(dex, u.kind)
  {
  }

  lemma ScannedNow(dex: Dex, c0: Cache, c: Cache, m: nat, done: seq<Use>)
    requires Scanning(dex, c0, c, m, done)
    ensures m < |c0.scanned| && c.scanned == c0.scanned[m := true]
  {
  }
}
