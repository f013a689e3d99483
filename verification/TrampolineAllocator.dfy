/** GenerateTrampolineFor: slots of executable pages handed out by a fetch_add on a word that
    holds a page address and, in its low bits, the next slot number. A caller that overshoots
    the page takes a lock and maps a new one. Any number of callers interleave by atomic
    steps; mmap may fail, and when it succeeds the kernel picks a fresh page. */
module TrampolineAllocator {

  type Thread = nat

  /** pageSize is kPageSize; slotSize is kTrampolineSize. */
  datatype Config = Config(pageSize: nat, slotSize: nat) {
    ghost predicate Valid() {
      (pageSize == 4096 || pageSize == 16384) && 8 <= slotSize <= pageSize
    }

    /** kTrampolineNumPerPage */
    function PerPage(): (n: nat)
      requires slotSize > 0
    {
      pageSize / slotSize
    }
  }

  datatype Pc =
    | Idle
    | Add                    // about to fetch_add
    | TryLock                // overshot: about to test_and_set
    | Wait                   // in trampoline_lock.wait(true)
    | Map                    // has the lock: about to mmap
    | FailUnlock             // mmap failed: about to clear the lock and return null
    | Store(page: nat)       // about to publish the new page
    | Unlock(page: nat)      // published: about to clear the lock and return slot 0

  /** A slot as the code computes it; its address is address + count * slotSize. */
  datatype Slot = Slot(address: nat, count: nat)

  /** cur and cnt split pool into the page last published and the additions since, and publisher is
      the caller that published it; sessions counts the lock releases, fails the failed maps and
      marks the overshoots since then. They record history: no step reads them. */
  datatype State = State(pool: nat, locked: bool, pages: set<nat>, pc: map<Thread, Pc>, out: seq<Slot>,
                         cur: nat, cnt: nat, publisher: Thread, sessions: nat, fails: nat,
                         marks: set<(Thread, nat)>)

  const Init := State(0, false, {}, map[], [], 0, 0, 0, 0, 0, {})

  /** What the kernel answers to mmap. */
  datatype Mmap = Failed | Page(page: nat)

  function PcOf(s: State, t: Thread): Pc { if t in s.pc then s.pc[t] else Idle }
  function Goto(s: State, t: Thread, pc: Pc): State { s.(pc := s.pc[t := pc]) }

  /** The address without the low 12 bits, and the slot number in the low 12 or 14 bits. */
  function AddressPart(word: nat): nat { word - word % 4096 }
  function CountPart(cfg: Config, word: nat): nat
    requires cfg.pageSize > 0
  {
    if cfg.pageSize == 16384 then word % 16384 else word % 4096
  }

  function FetchAdd(cfg: Config, s: State, t: Thread): State
    requires cfg.pageSize > 0 && cfg.slotSize > 0
  {
    var address, count := AddressPart(s.pool), CountPart(cfg, s.pool);
    var s' := s.(pool := s.pool + 1, cnt := s.cnt + 1);
    if address == 0 || count >= cfg.PerPage() then
      Goto(s', t, TryLock).(marks := s.marks + {(t, s.sessions)})
    else
      Goto(s', t, Idle).(out := s.out + [Slot(address, count)])
  }

  /** The next atomic step of caller t. A wait goes on only when the lock is seen clear. */
  function Step(cfg: Config, s: State, t: Thread, mm: Mmap): State
    requires cfg.pageSize > 0 && cfg.slotSize > 0
  {
    match PcOf(s, t)
    case Idle => Goto(s, t, Add)
    case Add => FetchAdd(cfg, s, t)
    case TryLock => if s.locked then Goto(s, t, Wait) else Goto(s.(locked := true), t, Map)
    case Wait => if s.locked then s else Goto(s, t, Add)
    case Map =>
      (match mm
       case Failed => Goto(s, t, FailUnlock)
       case Page(p) => Goto(s.(pages := s.pages + {p}), t, Store(p)))
    case FailUnlock => Goto(s.(locked := false, sessions := s.sessions + 1, fails := s.fails + 1), t, Idle)
    case Store(p) =>
      Goto(s.(pool := p + 1, out := s.out + [Slot(p, 0)],
              cur := p, cnt := 1, publisher := t, sessions := 0, fails := 0, marks := {}), t, Unlock(p))
    case Unlock(_) => Goto(s.(locked := false, sessions := s.sessions + 1), t, Idle)
  }

  /** A mapped page is aligned, not at 0 and none of those mapped before. */
  ghost predicate KernelOk(cfg: Config, s: State, t: Thread, mm: Mmap)
    requires cfg.pageSize > 0
  {
    PcOf(s, t).Map? && mm.Page? ==> mm.page > 0 && mm.page % cfg.pageSize == 0 && mm.page !in s.pages
  }

  // ----- the invariant -----

  predicate HasLock(pc: Pc) { pc.Map? || pc.FailUnlock? || pc.Store? || pc.Unlock? }

  ghost predicate LockInv(s: State) {
    && (forall t :: t in s.pc && HasLock(s.pc[t]) ==> s.locked)
    && (forall t, u :: t in s.pc && u in s.pc && HasLock(s.pc[t]) && HasLock(s.pc[u]) ==> t == u)
  }

  ghost predicate SlotInv(cfg: Config, s: State)
    requires cfg.slotSize > 0 && cfg.pageSize > 0
  {
    && s.pool == s.cur + s.cnt && s.cur % cfg.pageSize == 0
    && (s.cur == 0 || s.cur in s.pages)
    && (forall p :: p in s.pages ==> p > 0 && p % cfg.pageSize == 0)
    && (forall i :: 0 <= i < |s.out| ==> s.out[i].address in s.pages && s.out[i].count < cfg.PerPage())
    && (forall i :: 0 <= i < |s.out| && s.out[i].address == s.cur ==> s.out[i].count < s.cnt)
    && (forall i, j :: 0 <= i < j < |s.out| ==> s.out[i] != s.out[j])
  }

  /** A page that is mapped but not yet published is unused. */
  ghost predicate FreshInv(s: State) {
    forall t :: t in s.pc && s.pc[t].Store? ==>
      var p := s.pc[t].page;
      p in s.pages && p != s.cur && forall i :: 0 <= i < |s.out| ==> s.out[i].address != p
  }

  /** Each caller overshoots at most once between two releases of the lock, and the publisher of
      the page not before it has released it. */
  ghost predicate MarkInv(cfg: Config, callers: set<Thread>, s: State)
    requires cfg.slotSize > 0
  {
    && s.sessions <= s.fails + (if s.cur == 0 then 0 else 1)
    && (s.cur != 0 ==> s.publisher in callers && (s.publisher, 0) !in s.marks)
    && (s.cur != 0 && s.sessions == 0 ==> PcOf(s, s.publisher).Unlock?)
    && s.cnt <= (if s.cur == 0 then 0 else cfg.PerPage()) + |s.marks|
    && (forall m :: m in s.marks ==> m.0 in callers && m.1 <= s.sessions)
    && (forall t :: (t, s.sessions) in s.marks ==>
          PcOf(s, t).TryLock? || PcOf(s, t).Map? || PcOf(s, t).FailUnlock? || PcOf(s, t).Store?
          || (PcOf(s, t).Wait? && s.locked))
    && (forall t :: t in s.pc && s.pc[t].Unlock? ==> s.sessions == s.fails && s.cur != 0)
  }

  ghost predicate Inv(cfg: Config, callers: set<Thread>, s: State)
    requires cfg.slotSize > 0 && cfg.pageSize > 0
  {
    LockInv(s) && SlotInv(cfg, s) && FreshInv(s) && MarkInv(cfg, callers, s)
  }

  /** Such configurations, with slots of 32 bytes; a hundred callers may see thirty maps fail. */
  lemma ConfigsExist()
    ensures var small, large := Config(4096, 32), Config(16384, 32);
      && small.Valid() && small.PerPage() == 128 && small.PerPage() + 100 * (30 + 2) <= small.pageSize + 1
      && large.Valid() && large.PerPage() == 512 && large.PerPage() + 100 * (30 + 2) <= large.pageSize + 1
  {
  }

  // ----- one step -----

  lemma PerPageBound(cfg: Config)
    requires cfg.Valid()
    ensures 1 <= cfg.PerPage() <= 2048 && cfg.PerPage() <= 4096
    ensures cfg.pageSize == 4096 ==> cfg.PerPage() <= 512
    ensures cfg.PerPage() * cfg.slotSize <= cfg.pageSize < (cfg.PerPage() + 1) * cfg.slotSize
  {
    var n, z := cfg.PerPage(), cfg.slotSize;
    Quotient(cfg.pageSize, z);
    Scale(n, 8, z);
  }

  lemma Quotient(a: nat, z: nat)
    requires 0 < z <= a
    ensures 1 <= a / z && (a / z) * z <= a < (a / z + 1) * z
  {
    assert a == (a / z) * z + a % z;
  }

  lemma Scale(n: nat, x: nat, y: nat)
    requires x <= y
    ensures x * n <= n * y
  {
    assert n * y - x * n == n * (y - x);
  }

  lemma PageParts(page: nat, cur: nat, cnt: nat)
    requires (page == 4096 || page == 16384) && cur % page == 0 && cnt < page
    ensures (cur + cnt) % page == cnt && cur % 4096 == 0
    ensures cnt < 4096 ==> (cur + cnt) % 4096 == cnt
  {
    if page == 4096 {
      SmallParts(cur, cnt);
    } else {
      var k := cur / 16384;
      assert cur == 16384 * k && (16384 * k + cnt) % 16384 == cnt;
      assert cur == 4096 * (4 * k);
      if cnt < 4096 {
        SmallParts(cur, cnt);
      }
    }
  }

  lemma SmallParts(cur: nat, cnt: nat)
    requires cur % 4096 == 0 && cnt < 4096
    ensures (cur + cnt) % 4096 == cnt
  {
  }

  /** While the counter stays inside the page, the word still splits into page and number. */
  lemma FetchParts(cfg: Config, cur: nat, cnt: nat)
    requires cfg.Valid() && cur % cfg.pageSize == 0 && cnt < cfg.pageSize
    ensures CountPart(cfg, cur + cnt) == cnt
    ensures cnt < cfg.PerPage() ==> AddressPart(cur + cnt) == cur
    ensures cur == 0 && cnt < cfg.PerPage() ==> AddressPart(cur + cnt) == 0
  {
    PerPageBound(cfg);
    PageParts(cfg.pageSize, cur, cnt);
  }

  lemma {:induction false} LockKeeps(cfg: Config, s: State, t: Thread, mm: Mmap)
    requires cfg.Valid() && LockInv(s)
    ensures LockInv(Step(cfg, s, t, mm))
  {
    hide FetchAdd;
    FetchAddFrame(cfg, s, t);
    if PcOf(s, t).TryLock? && !s.locked {
      assert forall u :: u in s.pc ==> !HasLock(s.pc[u]);
    }
  }

  lemma FetchAddFrame(cfg: Config, s: State, t: Thread)
    requires cfg.Valid()
    ensures var s' := FetchAdd(cfg, s, t);
      && s'.locked == s.locked && s'.pages == s.pages && s'.cur == s.cur && s'.cnt == s.cnt + 1
      && s'.sessions == s.sessions && s'.fails == s.fails && s'.pool == s.pool + 1
      && (s'.pc == s.pc[t := Idle] || s'.pc == s.pc[t := TryLock])
  {}

  lemma {:induction false} FetchAddSlots(cfg: Config, callers: set<Thread>, s: State, t: Thread)
    requires cfg.Valid() && Inv(cfg, callers, s) && s.cnt < cfg.pageSize
    ensures SlotInv(cfg, FetchAdd(cfg, s, t)) && FreshInv(FetchAdd(cfg, s, t))
  {
    FetchParts(cfg, s.cur, s.cnt);
    PerPageBound(cfg);
    var s' := FetchAdd(cfg, s, t);
    if s'.out != s.out {
      assert s'.out == s.out + [Slot(s.cur, s.cnt)] && s.cur != 0;
    }
  }

  lemma {:induction false} FetchAddMarks(cfg: Config, callers: set<Thread>, s: State, t: Thread)
    requires cfg.Valid() && Inv(cfg, callers, s) && s.cnt < cfg.pageSize && t in callers && PcOf(s, t).Add?
    ensures MarkInv(cfg, callers, FetchAdd(cfg, s, t))
  {
    FetchParts(cfg, s.cur, s.cnt);
    PerPageBound(cfg);
    if s.cur != 0 && s.cnt < cfg.PerPage() {
      assert FetchAdd(cfg, s, t).marks == s.marks;
    } else {
      assert FetchAdd(cfg, s, t).marks == s.marks + {(t, s.sessions)};
      MarkCounted(cfg, callers, s, t, FetchAdd(cfg, s, t));
    }
  }

  /** An overshoot adds a mark that was not there. */
  lemma {:induction false} MarkCounted(cfg: Config, callers: set<Thread>, s: State, t: Thread, s': State)
    requires cfg.Valid() && MarkInv(cfg, callers, s) && t in callers && PcOf(s, t).Add?
    requires s.cur == 0 || s.cnt >= cfg.PerPage()
    requires s'.marks == s.marks + {(t, s.sessions)} && PcOf(s', t).TryLock? && s'.pc == s.pc[t := TryLock]
    requires s'.cur == s.cur && s'.cnt == s.cnt + 1 && s'.locked == s.locked
    requires s'.publisher == s.publisher && s'.sessions == s.sessions && s'.fails == s.fails
    ensures MarkInv(cfg, callers, s')
  {
    hide Config.PerPage;
    assert (t, s.sessions) !in s.marks;
    assert |s'.marks| == |s.marks| + 1;
  }

  lemma {:induction false} StoreKeeps(cfg: Config, callers: set<Thread>, s: State, t: Thread, mm: Mmap)
    requires cfg.Valid() && Inv(cfg, callers, s) && t in callers && PcOf(s, t).Store?
    ensures Inv(cfg, callers, Step(cfg, s, t, mm))
  {
    PerPageBound(cfg);
    LockKeeps(cfg, s, t, mm);
    var p, s' := PcOf(s, t).page, Step(cfg, s, t, mm);
    assert s'.out == s.out + [Slot(p, 0)];
    assert HasLock(s.pc[t]);
    assert forall u :: u in s'.pc && u != t ==> u in s.pc && !HasLock(s.pc[u]);
  }

  lemma {:induction false} MapKeeps(cfg: Config, callers: set<Thread>, s: State, t: Thread, mm: Mmap)
    requires cfg.Valid() && Inv(cfg, callers, s) && PcOf(s, t).Map? && KernelOk(cfg, s, t, mm)
    ensures Inv(cfg, callers, Step(cfg, s, t, mm))
  {
    LockKeeps(cfg, s, t, mm);
    var s' := Step(cfg, s, t, mm);
    assert s'.out == s.out && s'.marks == s.marks;
  }

  /** Clearing the lock starts a new session, of which no caller has a mark yet. */
  lemma {:induction false} ReleaseKeeps(cfg: Config, callers: set<Thread>, s: State, t: Thread, mm: Mmap)
    requires cfg.Valid() && Inv(cfg, callers, s) && (PcOf(s, t).FailUnlock? || PcOf(s, t).Unlock?)
    ensures Inv(cfg, callers, Step(cfg, s, t, mm))
  {
    LockKeeps(cfg, s, t, mm);
    var s' := Step(cfg, s, t, mm);
    assert HasLock(s.pc[t]);
    assert forall u :: u in s'.pc && u != t ==> u in s.pc && !HasLock(s.pc[u]);
    assert forall u :: (u, s'.sessions) !in s'.marks;
  }

  lemma {:induction false} LockStepKeeps(cfg: Config, callers: set<Thread>, s: State, t: Thread, mm: Mmap)
    requires cfg.Valid() && Inv(cfg, callers, s) && (PcOf(s, t).Idle? || PcOf(s, t).TryLock? || PcOf(s, t).Wait?)
    ensures Inv(cfg, callers, Step(cfg, s, t, mm))
  {
    LockKeeps(cfg, s, t, mm);
  }

  /** Every step keeps the invariant, provided the counter is still inside its page when it
      is incremented. */
  lemma {:induction false} StepKeeps(cfg: Config, callers: set<Thread>, s: State, t: Thread, mm: Mmap)
    requires cfg.Valid() && Inv(cfg, callers, s) && t in callers && KernelOk(cfg, s, t, mm)
    requires s.cnt < cfg.pageSize || !PcOf(s, t).Add?
    ensures Inv(cfg, callers, Step(cfg, s, t, mm))
  {
    hide Inv, Step;
    match PcOf(s, t)
    case Add =>
      AddKeeps(cfg, callers, s, t, mm);
    case Store(_) => StoreKeeps(cfg, callers, s, t, mm);
    case Map => MapKeeps(cfg, callers, s, t, mm);
    case FailUnlock => ReleaseKeeps(cfg, callers, s, t, mm);
    case Unlock(_) => ReleaseKeeps(cfg, callers, s, t, mm);
    case _ => LockStepKeeps(cfg, callers, s, t, mm);
  }

  lemma {:induction false} AddKeeps(cfg: Config, callers: set<Thread>, s: State, t: Thread, mm: Mmap)
    requires cfg.Valid() && Inv(cfg, callers, s) && t in callers && PcOf(s, t).Add? && s.cnt < cfg.pageSize
    ensures Inv(cfg, callers, Step(cfg, s, t, mm))
  {
    hide FetchAdd, SlotInv, FreshInv, MarkInv, LockInv;
    LockKeeps(cfg, s, t, mm);
    FetchAddSlots(cfg, callers, s, t);
    FetchAddMarks(cfg, callers, s, t);
  }

  // ----- the bound -----

  function Column(callers: set<Thread>, e: nat): set<(Thread, nat)> { set t | t in callers :: (t, e) }

  function Pairs(callers: set<Thread>, k: nat): set<(Thread, nat)> {
    if k == 0 then {} else Pairs(callers, k - 1) + Column(callers, k - 1)
  }

  lemma {:induction false} PairsMembers(callers: set<Thread>, k: nat, t: Thread, e: nat)
    ensures (t, e) in Pairs(callers, k) <==> t in callers && e < k
  {
    if k > 0 {
      PairsMembers(callers, k - 1, t, e);
    }
  }

  lemma Succ(n: nat, k: nat)
    ensures n * (k + 1) == n * k + n
  {}

  lemma Pred(n: nat, k: nat)
    requires k > 0
    ensures n * k == n * (k - 1) + n
  {
    Succ(n, k - 1);
  }

  lemma MulMono(a: nat, b: nat, z: nat)
    requires a <= b
    ensures a * z <= b * z
  {}

  lemma {:induction false} DisjointCount<T>(a: set<T>, b: set<T>)
    requires a !! b
    ensures |a + b| == |a| + |b|
  {
  }

  lemma {:induction false} PairsApart(callers: set<Thread>, k: nat)
    ensures forall m :: m in Column(callers, k) ==> m !in Pairs(callers, k)
  {
    forall m | m in Column(callers, k) ensures m !in Pairs(callers, k) {
      PairsMembers(callers, k, m.0, m.1);
    }
  }

  lemma {:induction false} ColumnCount(callers: set<Thread>, e: nat)
    ensures |Column(callers, e)| == |callers|
  {
    if callers != {} {
      var t :| t in callers;
      ColumnCount(callers - {t}, e);
      assert Column(callers, e) == Column(callers - {t}, e) + {(t, e)};
    }
  }

  lemma {:induction false} OneColumnMore(callers: set<Thread>, k: nat)
    ensures |Pairs(callers, k + 1)| == |Pairs(callers, k)| + |callers|
  {
    PairsApart(callers, k);
    ColumnCount(callers, k);
    hide Column;
    DisjointCount(Pairs(callers, k), Column(callers, k));
  }

  lemma {:induction false} PairsCount(callers: set<Thread>, k: nat)
    ensures |Pairs(callers, k)| == |callers| * k
  {
    if k > 0 {
      OneColumnMore(callers, k - 1);
      PairsCount(callers, k - 1);
      Pred(|callers|, k);
      hide *;
    }
  }

  lemma {:induction false} SubsetCount<T>(a: set<T>, b: set<T>)
    requires a <= b
    ensures |a| <= |b|
  {
    assert b == a + (b - a);
  }

  /** With at most F failed maps since the last page, a caller about to increment finds the
      counter inside the page if the slots of a page and F + 2 overshoots of every caller but
      two fit below the page size: this caller's is still to come, and the publisher had none
      before it released the lock. */
  lemma {:induction false} CounterStaysInPage(cfg: Config, callers: set<Thread>, s: State, t: Thread, maxFails: nat)
    requires cfg.Valid() && Inv(cfg, callers, s) && t in callers && PcOf(s, t).Add?
    requires s.fails <= maxFails && cfg.PerPage() + |callers| * (maxFails + 2) <= cfg.pageSize + 1
    ensures s.cnt < cfg.pageSize
  {
    hide LockInv, SlotInv, FreshInv, Pairs;
    PerPageBound(cfg);
    var all, mine, first := Pairs(callers, maxFails + 2), (t, s.sessions), (s.publisher, 0);
    PairsCount(callers, maxFails + 2);
    PairsMembers(callers, maxFails + 2, t, s.sessions);
    PairsMembers(callers, maxFails + 2, s.publisher, 0);
    assert mine !in s.marks;
    forall m | m in s.marks ensures m in all {
      PairsMembers(callers, maxFails + 2, m.0, m.1);
    }
    if s.cur != 0 {
      assert mine != first;
      SubsetCount(s.marks, all - {mine, first});
      assert |all - {mine, first}| == |all| - 2;
    } else {
      SubsetCount(s.marks, all - {mine});
      assert |all - {mine}| == |all| - 1;
    }
  }

  // ----- runs -----

  datatype Event = Event(t: Thread, mm: Mmap)

  function Run(cfg: Config, s: State, events: seq<Event>): State
    requires cfg.pageSize > 0 && cfg.slotSize > 0
    decreases |events|
  {
    if events == [] then s else Run(cfg, Step(cfg, s, events[0].t, events[0].mm), events[1..])
  }

  /** Only the given callers move, the kernel maps fresh pages, and it fails at most maxFails
      times before each page that it does map. */
  ghost predicate RunOk(cfg: Config, callers: set<Thread>, maxFails: nat, s: State, events: seq<Event>)
    requires cfg.pageSize > 0 && cfg.slotSize > 0
    decreases |events|
  {
    && s.fails <= maxFails
    && (events != [] ==>
          && events[0].t in callers
          && KernelOk(cfg, s, events[0].t, events[0].mm)
          && RunOk(cfg, callers, maxFails, Step(cfg, s, events[0].t, events[0].mm), events[1..]))
  }

  lemma {:induction false} RunKeeps(cfg: Config, callers: set<Thread>, maxFails: nat, s: State, events: seq<Event>)
    requires cfg.Valid() && Inv(cfg, callers, s) && RunOk(cfg, callers, maxFails, s, events)
    requires cfg.PerPage() + |callers| * (maxFails + 2) <= cfg.pageSize + 1
    ensures Inv(cfg, callers, Run(cfg, s, events))
    decreases |events|
  {
    if events != [] {
      var e := events[0];
      if PcOf(s, e.t).Add? {
        CounterStaysInPage(cfg, callers, s, e.t, maxFails);
      }
      StepKeeps(cfg, callers, s, e.t, e.mm);
      RunKeeps(cfg, callers, maxFails, Step(cfg, s, e.t, e.mm), events[1..]);
    }
  }

  function SlotAddress(cfg: Config, slot: Slot): nat { slot.address + slot.count * cfg.slotSize }

  ghost predicate Disjoint(a: nat, b: nat, size: nat) { a + size <= b || b + size <= a }

  lemma Distrib(c: nat, z: nat)
    ensures (c + 1) * z == c * z + z
  {}

  lemma SlotInPage(cfg: Config, slot: Slot)
    requires cfg.Valid() && slot.count < cfg.PerPage()
    ensures slot.address <= SlotAddress(cfg, slot)
    ensures SlotAddress(cfg, slot) + cfg.slotSize <= slot.address + cfg.pageSize
  {
    hide Config.PerPage;
    PerPageBound(cfg);
    CellInPage(cfg.PerPage(), cfg.slotSize, slot.count, cfg.pageSize);
  }

  lemma CellInPage(n: nat, z: nat, c: nat, page: nat)
    requires c < n && n * z <= page
    ensures c * z + z <= page
  {
    MulMono(c + 1, n, z);
    Distrib(c, z);
  }

  lemma SlotsApart(cfg: Config, a: Slot, b: Slot)
    requires cfg.Valid() && a.count < cfg.PerPage() && b.count < cfg.PerPage() && a != b
    requires a.address % cfg.pageSize == 0 && b.address % cfg.pageSize == 0
    ensures Disjoint(SlotAddress(cfg, a), SlotAddress(cfg, b), cfg.slotSize)
  {
    hide Config.PerPage;
    SlotInPage(cfg, a);
    SlotInPage(cfg, b);
    if a.address == b.address {
      var z := cfg.slotSize;
      if a.count < b.count {
        MulMono(a.count + 1, b.count, z);
        Distrib(a.count, z);
      } else {
        MulMono(b.count + 1, a.count, z);
        Distrib(b.count, z);
      }
    } else {
      PagesApart(cfg.pageSize, a.address, b.address);
    }
  }

  lemma PagesApart(size: nat, a: nat, b: nat)
    requires size == 4096 || size == 16384
    requires a % size == 0 && b % size == 0 && a != b
    ensures a + size <= b || b + size <= a
  {}

  /** Every slot handed out lies inside a page that mmap returned, and no two of them overlap. */
  ghost predicate SlotsFine(cfg: Config, s: State) {
    && (forall i :: 0 <= i < |s.out| ==>
          && s.out[i].address in s.pages
          && s.out[i].address <= SlotAddress(cfg, s.out[i])
          && SlotAddress(cfg, s.out[i]) + cfg.slotSize <= s.out[i].address + cfg.pageSize)
    && (forall i, j :: 0 <= i < j < |s.out| ==>
          Disjoint(SlotAddress(cfg, s.out[i]), SlotAddress(cfg, s.out[j]), cfg.slotSize))
  }

  /** In every interleaving of the callers the slots are fine, as long as PerPage +
      callers * (maxFails + 2) is at most one more than the page size. */
  lemma {:induction false} SlotsNeverOverlap(cfg: Config, callers: set<Thread>, maxFails: nat, events: seq<Event>)
    requires cfg.Valid() && RunOk(cfg, callers, maxFails, Init, events)
    requires cfg.PerPage() + |callers| * (maxFails + 2) <= cfg.pageSize + 1
    ensures SlotsFine(cfg, Run(cfg, Init, events))
  {
    RunKeeps(cfg, callers, maxFails, Init, events);
    var s := Run(cfg, Init, events);
    forall i | 0 <= i < |s.out|
      ensures s.out[i].address <= SlotAddress(cfg, s.out[i])
      ensures SlotAddress(cfg, s.out[i]) + cfg.slotSize <= s.out[i].address + cfg.pageSize
    {
      SlotInPage(cfg, s.out[i]);
    }
    forall i, j | 0 <= i < j < |s.out|
      ensures Disjoint(SlotAddress(cfg, s.out[i]), SlotAddress(cfg, s.out[j]), cfg.slotSize)
    {
      SlotsApart(cfg, s.out[i], s.out[j]);
    }
  }

  /** Of the page last published every number below the counter has been handed out. */
  ghost predicate Filled(cfg: Config, s: State)
    requires cfg.slotSize > 0
  {
    s.cur != 0 ==> forall k :: 0 <= k < s.cnt && k < cfg.PerPage() ==> Slot(s.cur, k) in s.out
  }

  lemma {:induction false} StepFills(cfg: Config, callers: set<Thread>, s: State, t: Thread, mm: Mmap)
    requires cfg.Valid() && Inv(cfg, callers, s) && Filled(cfg, s)
    requires s.cnt < cfg.pageSize || !PcOf(s, t).Add?
    ensures Filled(cfg, Step(cfg, s, t, mm))
  {
    hide Config.PerPage, LockInv, FreshInv, MarkInv;
    PerPageBound(cfg);
    var s' := Step(cfg, s, t, mm);
    if PcOf(s, t).Add? {
      FetchParts(cfg, s.cur, s.cnt);
    } else if PcOf(s, t).Store? {
      assert s'.out == s.out + [Slot(s'.cur, 0)];
    }
    forall k | s'.cur != 0 && 0 <= k < s'.cnt && k < cfg.PerPage() ensures Slot(s'.cur, k) in s'.out {
    }
  }

  lemma {:induction false} RunFills(cfg: Config, callers: set<Thread>, maxFails: nat, s: State, events: seq<Event>)
    requires cfg.Valid() && Inv(cfg, callers, s) && Filled(cfg, s) && RunOk(cfg, callers, maxFails, s, events)
    requires cfg.PerPage() + |callers| * (maxFails + 2) <= cfg.pageSize + 1
    ensures Filled(cfg, Run(cfg, s, events))
    decreases |events|
  {
    hide Inv, Filled, Step, Config.PerPage;
    if events != [] {
      var e := events[0];
      if PcOf(s, e.t).Add? {
        CounterStaysInPage(cfg, callers, s, e.t, maxFails);
      }
      StepFills(cfg, callers, s, e.t, e.mm);
      StepKeeps(cfg, callers, s, e.t, e.mm);
      RunFills(cfg, callers, maxFails, Step(cfg, s, e.t, e.mm), events[1..]);
    }
  }

  /** Under the same bound no slot of the current page is skipped, in any interleaving. */
  lemma {:induction false} NoSlotSkipped(cfg: Config, callers: set<Thread>, maxFails: nat, events: seq<Event>)
    requires cfg.Valid() && RunOk(cfg, callers, maxFails, Init, events)
    requires cfg.PerPage() + |callers| * (maxFails + 2) <= cfg.pageSize + 1
    ensures Filled(cfg, Run(cfg, Init, events))
  {
    RunFills(cfg, callers, maxFails, Init, events);
  }

  // ----- the bound is exact -----

  ghost predicate Stray(s: State) { exists i :: 0 <= i < |s.out| && s.out[i].address !in s.pages }

  /** From s the callers can be scheduled so that a slot outside all pages is handed out. */
  ghost predicate Doomed(cfg: Config, callers: set<Thread>, maxFails: nat, s: State)
    requires cfg.pageSize > 0 && cfg.slotSize > 0
  {
    exists events :: RunOk(cfg, callers, maxFails, s, events) && Stray(Run(cfg, s, events))
  }

  lemma {:induction false} DoomedBefore(cfg: Config, callers: set<Thread>, maxFails: nat, s: State, t: Thread, mm: Mmap)
    requires cfg.Valid() && s.fails <= maxFails && t in callers && KernelOk(cfg, s, t, mm)
    requires Doomed(cfg, callers, maxFails, Step(cfg, s, t, mm))
    ensures Doomed(cfg, callers, maxFails, s)
  {
    var s' := Step(cfg, s, t, mm);
    var events :| RunOk(cfg, callers, maxFails, s', events) && Stray(Run(cfg, s', events));
    var all := [Event(t, mm)] + events;
    assert all[0] == Event(t, mm) && all[1..] == events;
    hide Step, KernelOk;
    assert RunOk(cfg, callers, maxFails, s, all) && Stray(Run(cfg, s, all));
  }

  /** One page is mapped, the one at pageSize, and the counter has reached c. */
  ghost predicate Reached(cfg: Config, s: State, c: nat, fails: nat, locked: bool) {
    s.pool == cfg.pageSize + c && s.pages == {cfg.pageSize} && s.fails == fails && s.locked == locked
  }

  /** Only caller t has moved. */
  ghost predicate Others(s: State, s': State, t: Thread) {
    forall u :: u != t ==> PcOf(s', u) == PcOf(s, u)
  }

  predicate Ready(pc: Pc) { pc.Idle? || pc.Add? || pc.Wait? }

  function Top(cfg: Config, c: nat): nat
    requires cfg.slotSize > 0
  {
    if c < cfg.PerPage() then cfg.PerPage() else c
  }

  /** Just before the counter leaves the page, one more increment is one too many. */
  lemma {:induction false} AddDoomed(cfg: Config, callers: set<Thread>, maxFails: nat, s: State, t: Thread)
    requires cfg.Valid() && t in callers && s.fails <= maxFails && PcOf(s, t).Add?
    requires s.pool == 2 * cfg.pageSize && s.pages == {cfg.pageSize}
    ensures Doomed(cfg, callers, maxFails, s)
  {
    CarryAgain(cfg);
    PerPageBound(cfg);
    var s' := Step(cfg, s, t, Failed);
    assert s'.out[|s.out|] == Slot(2 * cfg.pageSize, 0);
    assert Stray(s');
    assert RunOk(cfg, callers, maxFails, s', []) && Run(cfg, s', []) == s';
    DoomedBefore(cfg, callers, maxFails, s, t, Failed);
  }

  lemma CarryAgain(cfg: Config)
    requires cfg.Valid()
    ensures CountPart(cfg, 2 * cfg.pageSize) == 0 && AddressPart(2 * cfg.pageSize) == 2 * cfg.pageSize
  {
    if cfg.pageSize == 16384 {
      assert AddressPart(32768) == 32768;
    } else {
      assert AddressPart(8192) == 8192;
    }
  }

  /** An increment inside the page: a slot, or an overshoot. */
  lemma {:induction false} AddStep(cfg: Config, s: State, t: Thread, c: nat)
    requires cfg.Valid() && PcOf(s, t).Add? && s.pool == cfg.pageSize + c && s.pages == {cfg.pageSize} && c < cfg.pageSize
    ensures var s' := Step(cfg, s, t, Failed);
      && Reached(cfg, s', c + 1, s.fails, s.locked) && Others(s, s', t)
      && PcOf(s', t) == if c < cfg.PerPage() then Idle else TryLock
  {
    PerPageBound(cfg);
    FetchParts(cfg, cfg.pageSize, c);
  }

  /** The lock is free; the callers in ready can still increment, the others wait to try it. */
  ghost predicate Free(cfg: Config, callers: set<Thread>, s: State, c: nat, ready: set<Thread>) {
    && Reached(cfg, s, c, s.fails, false) && ready <= callers
    && forall t :: t in callers ==> if t in ready then Ready(PcOf(s, t)) else PcOf(s, t).TryLock?
  }

  lemma {:induction false} GoesToAdd(cfg: Config, s: State, t: Thread)
    requires cfg.Valid() && !s.locked && (PcOf(s, t).Idle? || PcOf(s, t).Wait?)
    ensures var s' := Step(cfg, s, t, Failed); PcOf(s', t).Add? && Others(s, s', t) && s' == s.(pc := s'.pc)
  {}

  /** Every ready caller increments once more, and so does every caller after each further
      failure. */
  lemma {:induction false} FreeDoomed(cfg: Config, callers: set<Thread>, maxFails: nat, s: State, c: nat, ready: set<Thread>)
    requires cfg.Valid() && callers != {} && s.fails <= maxFails && c <= cfg.pageSize
    requires Free(cfg, callers, s, c, ready)
    requires Top(cfg, c) + |ready| + |callers| * (maxFails - s.fails) > cfg.pageSize
    ensures Doomed(cfg, callers, maxFails, s)
    decreases maxFails - s.fails, 1, |ready|, cfg.pageSize - c, 1
  {
    PerPageBound(cfg);
    if ready != {} {
      var t :| t in ready;
      if PcOf(s, t).Add? {
        ReadyAdds(cfg, callers, maxFails, s, c, ready, t);
      } else {
        hide Config.PerPage;
        GoesToAdd(cfg, s, t);
        ReadyAdds(cfg, callers, maxFails, Step(cfg, s, t, Failed), c, ready, t);
        DoomedBefore(cfg, callers, maxFails, s, t, Failed);
      }
    } else {
      assert maxFails > s.fails;
      var u :| u in callers;
      var s' := Step(cfg, s, u, Failed);
      assert PcOf(s', u).Map? && Others(s, s', u);
      HeldDoomed(cfg, callers, maxFails, s', c, u, callers - {u});
      DoomedBefore(cfg, callers, maxFails, s, u, Failed);
    }
  }

  lemma {:induction false} ReadyAdds(cfg: Config, callers: set<Thread>, maxFails: nat, s: State, c: nat, ready: set<Thread>, t: Thread)
    requires cfg.Valid() && callers != {} && s.fails <= maxFails && c <= cfg.pageSize
    requires Free(cfg, callers, s, c, ready) && t in ready && PcOf(s, t).Add?
    requires Top(cfg, c) + |ready| + |callers| * (maxFails - s.fails) > cfg.pageSize
    ensures Doomed(cfg, callers, maxFails, s)
    decreases maxFails - s.fails, 1, |ready|, cfg.pageSize - c, 0
  {
    if c == cfg.pageSize {
      AddDoomed(cfg, callers, maxFails, s, t);
    } else {
      PerPageBound(cfg);
      AddStep(cfg, s, t, c);
      var s' := Step(cfg, s, t, Failed);
      hide Step, Config.PerPage;
      FreeDoomed(cfg, callers, maxFails, s', c + 1, if c < cfg.PerPage() then ready else ready - {t});
      DoomedBefore(cfg, callers, maxFails, s, t, Failed);
    }
  }

  /** Caller u holds the lock; it lets the callers in trying run into it, and then fails. */
  lemma {:induction false} HeldDoomed(cfg: Config, callers: set<Thread>, maxFails: nat, s: State, c: nat, u: Thread, trying: set<Thread>)
    requires cfg.Valid() && s.fails < maxFails && c <= cfg.pageSize && u in callers && u !in trying && trying <= callers
    requires Reached(cfg, s, c, s.fails, true) && PcOf(s, u).Map?
    requires forall t :: t in callers && t != u ==> if t in trying then PcOf(s, t).TryLock? else PcOf(s, t).Wait?
    requires Top(cfg, c) + |callers| * (maxFails - s.fails) > cfg.pageSize
    ensures Doomed(cfg, callers, maxFails, s)
    decreases maxFails - s.fails, 0, |trying|
  {
    if trying != {} {
      var t :| t in trying;
      var s' := Step(cfg, s, t, Failed);
      assert PcOf(s', t).Wait? && Others(s, s', t);
      HeldDoomed(cfg, callers, maxFails, s', c, u, trying - {t});
      DoomedBefore(cfg, callers, maxFails, s, t, Failed);
    } else {
      var s1 := Step(cfg, s, u, Failed);
      var s2 := Step(cfg, s1, u, Failed);
      assert PcOf(s2, u).Idle? && Others(s, s2, u);
      Succ(|callers|, maxFails - s.fails - 1);
      FreeDoomed(cfg, callers, maxFails, s2, c, callers);
      DoomedBefore(cfg, callers, maxFails, s1, u, Failed);
      DoomedBefore(cfg, callers, maxFails, s, u, Failed);
    }
  }

  /** While the publisher still holds the lock, every other caller can overshoot once. */
  lemma {:induction false} PublishedDoomed(cfg: Config, callers: set<Thread>, maxFails: nat, s: State, c: nat, u: Thread, ready: set<Thread>)
    requires cfg.Valid() && s.fails == 0 && c <= cfg.pageSize && u in callers && u !in ready && ready <= callers
    requires Reached(cfg, s, c, 0, true) && PcOf(s, u).Unlock?
    requires forall t :: t in callers && t != u ==> if t in ready then PcOf(s, t).Idle? else PcOf(s, t).Wait?
    requires Top(cfg, c) + |ready| + |callers| * (maxFails + 1) > cfg.pageSize
    ensures Doomed(cfg, callers, maxFails, s)
    decreases |ready|, cfg.pageSize - c
  {
    PerPageBound(cfg);
    if ready != {} {
      var t :| t in ready;
      var s1 := Step(cfg, s, t, Failed);
      assert PcOf(s1, t).Add? && Others(s, s1, t) && Reached(cfg, s1, c, 0, true);
      if c == cfg.pageSize {
        AddDoomed(cfg, callers, maxFails, s1, t);
      } else {
        AddStep(cfg, s1, t, c);
        var s2 := Step(cfg, s1, t, Failed);
        if c < cfg.PerPage() {
          PublishedDoomed(cfg, callers, maxFails, s2, c + 1, u, ready);
        } else {
          var s3 := Step(cfg, s2, t, Failed);
          assert PcOf(s3, t).Wait? && Others(s2, s3, t);
          PublishedDoomed(cfg, callers, maxFails, s3, c + 1, u, ready - {t});
          DoomedBefore(cfg, callers, maxFails, s2, t, Failed);
        }
        DoomedBefore(cfg, callers, maxFails, s1, t, Failed);
      }
      DoomedBefore(cfg, callers, maxFails, s, t, Failed);
    } else {
      var s' := Step(cfg, s, u, Failed);
      assert PcOf(s', u).Idle? && Others(s, s', u);
      Succ(|callers|, maxFails);
      FreeDoomed(cfg, callers, maxFails, s', c, callers);
      DoomedBefore(cfg, callers, maxFails, s, u, Failed);
    }
  }

  /** The first call finds no page and goes on to map one. */
  lemma {:induction false} FirstAdd(cfg: Config, s: State, u: Thread)
    requires cfg.Valid() && PcOf(s, u).Add? && s.pool == 0
    ensures var s' := Step(cfg, s, u, Failed);
      && PcOf(s', u).TryLock? && Others(s, s', u)
      && s'.locked == s.locked && s'.pages == s.pages && s'.fails == s.fails
  {
  }

  lemma {:induction false} FirstTry(cfg: Config, s: State, u: Thread)
    requires cfg.Valid() && PcOf(s, u).TryLock? && !s.locked
    ensures var s' := Step(cfg, s, u, Failed);
      PcOf(s', u).Map? && Others(s, s', u) && s'.locked && s'.pages == s.pages && s'.fails == s.fails
  {
  }

  lemma {:induction false} FirstPage(cfg: Config, s: State, u: Thread) returns (s1: State, s2: State)
    requires cfg.Valid() && PcOf(s, u).Map? && s.locked && s.pages == {} && s.fails == 0
    ensures s1 == Step(cfg, s, u, Page(cfg.pageSize)) && s2 == Step(cfg, s1, u, Failed) && s1.fails == 0
    ensures PcOf(s1, u).Store? && PcOf(s2, u).Unlock? && Reached(cfg, s2, 1, 0, true) && Others(s, s2, u)
  {
    s1 := Step(cfg, s, u, Page(cfg.pageSize));
    s2 := Step(cfg, s1, u, Failed);
  }

  /** Beyond the bound some run goes wrong: a caller maps a page and publishes it. */
  lemma {:induction false} BeyondDoomed(cfg: Config, callers: set<Thread>, maxFails: nat, s: State)
    requires cfg.Valid() && callers != {} && cfg.PerPage() + |callers| * (maxFails + 2) > cfg.pageSize + 1
    requires s.pool == 0 && !s.locked && s.pages == {} && s.fails == 0 && forall t :: PcOf(s, t).Idle?
    ensures Doomed(cfg, callers, maxFails, s)
  {
    var u :| u in callers;
    GoesToAdd(cfg, s, u);
    var s1 := Step(cfg, s, u, Failed);
    FirstAdd(cfg, s1, u);
    var s2 := Step(cfg, s1, u, Failed);
    FirstTry(cfg, s2, u);
    var s3 := Step(cfg, s2, u, Failed);
    MapDoomed(cfg, callers, maxFails, s3, u);
    hide *;
    DoomedBefore(cfg, callers, maxFails, s2, u, Failed);
    DoomedBefore(cfg, callers, maxFails, s1, u, Failed);
    DoomedBefore(cfg, callers, maxFails, s, u, Failed);
  }

  lemma {:induction false} MapDoomed(cfg: Config, callers: set<Thread>, maxFails: nat, s: State, u: Thread)
    requires cfg.Valid() && u in callers && cfg.PerPage() + |callers| * (maxFails + 2) > cfg.pageSize + 1
    requires PcOf(s, u).Map? && s.locked && s.pages == {} && s.fails == 0 && forall t :: t != u ==> PcOf(s, t).Idle?
    ensures Doomed(cfg, callers, maxFails, s)
  {
    var s1, s2 := FirstPage(cfg, s, u);
    PerPageBound(cfg);
    Succ(|callers|, maxFails + 1);
    assert |callers - {u}| == |callers| - 1;
    PublishedDoomed(cfg, callers, maxFails, s2, 1, u, callers - {u});
    DoomedBefore(cfg, callers, maxFails, s1, u, Failed);
    DoomedBefore(cfg, callers, maxFails, s, u, Page(cfg.pageSize));
  }

  /** The exact condition: the slots are fine in every run of these callers if and only if the
      bound holds. */
  lemma {:induction false} SlotsFineExactly(cfg: Config, callers: set<Thread>, maxFails: nat)
    requires cfg.Valid() && callers != {}
    ensures (forall events :: RunOk(cfg, callers, maxFails, Init, events) ==> SlotsFine(cfg, Run(cfg, Init, events)))
      <==> cfg.PerPage() + |callers| * (maxFails + 2) <= cfg.pageSize + 1
  {
    if cfg.PerPage() + |callers| * (maxFails + 2) <= cfg.pageSize + 1 {
      forall events | RunOk(cfg, callers, maxFails, Init, events) ensures SlotsFine(cfg, Run(cfg, Init, events)) {
        SlotsNeverOverlap(cfg, callers, maxFails, events);
      }
    } else {
      BeyondDoomed(cfg, callers, maxFails, Init);
      var events :| RunOk(cfg, callers, maxFails, Init, events) && Stray(Run(cfg, Init, events));
      assert !SlotsFine(cfg, Run(cfg, Init, events));
    }
  }

  // ----- without a bound on failures -----

  /** One call whose mmap fails. */
  function FailingCall(t: Thread): (events: seq<Event>)
    ensures |events| == 5
  {
    seq<Event>(5, i => Event(t, Failed))
  }

  function FailingCalls(t: Thread, n: nat): (events: seq<Event>) {
    if n == 0 then [] else FailingCall(t) + FailingCalls(t, n - 1)
  }

  lemma {:induction false} RunSplit(cfg: Config, s: State, a: seq<Event>, b: seq<Event>)
    requires cfg.pageSize > 0 && cfg.slotSize > 0
    ensures Run(cfg, s, a + b) == Run(cfg, Run(cfg, s, a), b)
    decreases |a|
  {
    if a == [] {
      assert a + b == b;
    } else {
      assert (a + b)[0] == a[0] && (a + b)[1..] == a[1..] + b;
      RunSplit(cfg, Step(cfg, s, a[0].t, a[0].mm), a[1..], b);
    }
  }

  ghost predicate Quiet(s: State, t: Thread, n: nat) {
    s.pool == n && !s.locked && s.pages == {} && s.out == [] && PcOf(s, t).Idle?
  }

  lemma {:induction false} OneFailingCall(cfg: Config, s: State, t: Thread, n: nat)
    requires cfg.Valid() && Quiet(s, t, n) && n < cfg.pageSize
    ensures Quiet(Run(cfg, s, FailingCall(t)), t, n + 1)
  {
    PerPageBound(cfg);
    FetchParts(cfg, 0, n);
    var c := FailingCall(t);
    var s1 := Step(cfg, s, t, Failed);
    var s2 := Step(cfg, s1, t, Failed);
    var s3 := Step(cfg, s2, t, Failed);
    var s4 := Step(cfg, s3, t, Failed);
    var s5 := Step(cfg, s4, t, Failed);
    assert s2.pool == n + 1 && PcOf(s2, t) == TryLock;
    assert PcOf(s3, t) == Map && PcOf(s4, t) == FailUnlock && Quiet(s5, t, n + 1);
    var tail4 := c[1..];
    var tail3 := tail4[1..];
    var tail2 := tail3[1..];
    var tail1 := tail2[1..];
    assert Run(cfg, s4, tail1) == Run(cfg, s5, tail1[1..]) == s5;
    assert Run(cfg, s3, tail2) == Run(cfg, s4, tail1);
    assert Run(cfg, s2, tail3) == Run(cfg, s3, tail2);
    assert Run(cfg, s1, tail4) == Run(cfg, s2, tail3);
    assert Run(cfg, s, c) == Run(cfg, s1, tail4);
  }

  lemma {:induction false} ManyFailingCalls(cfg: Config, s: State, t: Thread, n: nat, k: nat)
    requires cfg.Valid() && Quiet(s, t, n) && n + k <= cfg.pageSize
    ensures Quiet(Run(cfg, s, FailingCalls(t, k)), t, n + k)
    decreases k
  {
    if k > 0 {
      OneFailingCall(cfg, s, t, n);
      RunSplit(cfg, s, FailingCall(t), FailingCalls(t, k - 1));
      ManyFailingCalls(cfg, Run(cfg, s, FailingCall(t)), t, n + 1, k - 1);
    }
  }

  lemma CarryParts(cfg: Config)
    requires cfg.Valid()
    ensures CountPart(cfg, cfg.pageSize) == 0 && AddressPart(cfg.pageSize) == cfg.pageSize
  {
    if cfg.pageSize == 16384 {
      assert AddressPart(16384) == 16384;
    } else {
      assert AddressPart(4096) == 4096;
    }
  }

  /** The bound on failures is needed, even for a single caller: after pageSize calls whose
      mmap fails, the counter has carried into the address, and the next call is given a
      slot although no page was ever mapped. */
  lemma {:induction false} CarryReachable(cfg: Config, t: Thread)
    requires cfg.Valid()
    ensures var s := Run(cfg, Init, FailingCalls(t, cfg.pageSize) + [Event(t, Failed), Event(t, Failed)]);
      s.out == [Slot(cfg.pageSize, 0)] && s.pages == {}
  {
    ManyFailingCalls(cfg, Init, t, 0, cfg.pageSize);
    var calls, last := FailingCalls(t, cfg.pageSize), [Event(t, Failed), Event(t, Failed)];
    RunSplit(cfg, Init, calls, last);
    var s := Run(cfg, Init, calls);
    var s1 := Step(cfg, s, t, Failed);
    PerPageBound(cfg);
    assert Run(cfg, s, last) == Run(cfg, s1, last[1..]);
    assert Run(cfg, s1, last[1..]) == Run(cfg, Step(cfg, s1, t, Failed), last[1..][1..]);
    assert PcOf(s1, t) == Add && s1.pool == cfg.pageSize;
    CarryParts(cfg);
  }
}
