/** The executable memory arenas: blocks from the default allocator and blocks near an address. */
module MemoryArenas {

  datatype Option<+T> = None | Some(value: T)

  datatype Block = Block(addr: nat, size: nat) {
    function End(): nat { addr + size }
  }

  /** One mapping of the process, as /proc/self/maps lists it. */
  datatype Region = Region(start: nat, size: nat) {
    function End(): nat { start + size }
  }

  ghost predicate Disjoint(a: nat, aEnd: nat, b: nat, bEnd: nat) { aEnd <= b || bEnd <= a }

  // ----- page arithmetic -----

  predicate Aligned(a: nat, page: nat)
    requires page > 0
  {
    a % page == 0
  }

  function AlignFloor(a: nat, page: nat): nat
    requires page > 0
  {
    a - a % page
  }

  function AlignCeil(a: nat, page: nat): nat
    requires page > 0
  {
    AlignFloor(a + page - 1, page)
  }

  lemma DivMod(a: nat, page: nat)
    requires page > 0
    ensures a == page * (a / page) + a % page && 0 <= a % page < page
  {
  }

  lemma MulMod(k: nat, page: nat)
    requires page > 0
    ensures (page * k) % page == 0
  {
    DivMod(page * k, page);
    var q, r := page * k / page, page * k % page;
    assert page * (k - q) == r;
    if k - q >= 1 {
      MulMono(page, 1, k - q);
    } else if k - q <= -1 {
      MulMono(page, 1, q - k);
    }
  }

  lemma MulMono(page: nat, x: int, y: int)
    requires x <= y
    ensures page * x <= page * y
  {
    assert page * y - page * x == page * (y - x);
  }

  /** The floor is aligned, and an aligned bound lies above a exactly if it lies a page above the floor. */
  lemma FloorFacts(a: nat, x: nat, page: nat)
    requires page > 0 && Aligned(x, page)
    ensures Aligned(AlignFloor(a, page), page) && AlignFloor(a, page) <= a < AlignFloor(a, page) + page
    ensures x <= a <==> x <= AlignFloor(a, page)
    ensures a < x <==> AlignFloor(a, page) + page <= x
  {
    DivMod(a, page);
    DivMod(x, page);
    MulMod(a / page, page);
    hide Aligned;
    FloorBounds(a, x, page, a / page, x / page);
  }

  lemma FloorBounds(a: nat, x: nat, page: nat, q: nat, k: nat)
    requires page * q <= a < page * q + page && x == page * k
    ensures x <= a <==> x <= page * q
    ensures a < x <==> page * q + page <= x
  {
    if k <= q {
      MulMono(page, k, q);
    } else {
      MulMono(page, q + 1, k);
    }
  }

  lemma AlignedSum(a: nat, b: nat, page: nat)
    requires page > 0 && Aligned(a, page) && Aligned(b, page)
    ensures Aligned(a + b, page) && (a >= b ==> Aligned(a - b, page))
  {
    DivMod(a, page);
    DivMod(b, page);
    assert a + b == page * (a / page + b / page);
    MulMod(a / page + b / page, page);
    if a >= b {
      assert a - b == page * (a / page - b / page);
      if a / page < b / page {
        MulMono(page, a / page + 1, b / page);
      }
      MulMod(a / page - b / page, page);
    }
  }

  lemma CeilFacts(size: nat, page: nat)
    requires page > 0
    ensures size <= AlignCeil(size, page) < size + page && Aligned(AlignCeil(size, page), page)
  {
    MulMod(0, page);
    FloorFacts(size + page - 1, 0, page);
  }

  // ----- one arena -----

  class MemoryArena {
    const addr: nat
    const size: nat
    var cursor: nat
    ghost var blocks: seq<Block>         // handed out so far, placeholders included

    ghost function End(): nat { addr + size }

    ghost function Room(): int reads this { End() - cursor }

    /** The blocks lie one behind the other between the start and the cursor. */
    ghost predicate Valid()
      reads this
    {
      && addr <= cursor <= End()
      && (forall b :: b in blocks ==> addr <= b.addr && b.End() <= cursor)
      && forall i, j :: 0 <= i < j < |blocks| ==> blocks[i].End() <= blocks[j].addr
    }

    constructor (addr: nat, size: nat)
      ensures Valid() && this.addr == addr && this.size == size && cursor == addr && blocks == []
    {
      this.addr, this.size, cursor, blocks := addr, size, addr, [];
    }

    method AllocMemBlock(size: nat) returns (r: Option<Block>)
      requires Valid()
      modifies this
      ensures Valid()
      ensures r.Some? <==> old(End() - cursor) >= size
      ensures r.None? ==> unchanged(this)
      ensures r.Some? ==> r.value == Block(old(cursor), size) && cursor == old(cursor) + size && blocks == old(blocks) + [r.value]
    {
      if addr + this.size - cursor < size {
        return None;
      }
      var result := Block(cursor, size);
      cursor := cursor + size;
      blocks := blocks + [result];
      return Some(result);
    }

    /** Skips to `at` with a placeholder block and hands out the block there. */
    method AllocBehindPlaceholder(at: nat, size: nat) returns (block: Block)
      requires Valid() && cursor <= at && at + size <= End()
      modifies this
      ensures Valid() && block == Block(at, size) && cursor == at + size
      ensures blocks == old(blocks) + [Block(old(cursor), at - old(cursor)), block] && old(blocks) <= blocks
    {
      ghost var before, gap := blocks, Block(cursor, at - cursor);
      var placeholder := AllocMemBlock(at - cursor);
      var r := AllocMemBlock(size);
      block := r.value;
      assert before + [gap] + [block] == before + [gap, block];
    }
  }

  // ----- the allocators -----

  class MemoryAllocator {
    const page: nat
    var codeArenas: seq<MemoryArena>
    ghost var issued: seq<Block>         // every block that a request has returned

    ghost function Arenas(): set<MemoryArena>
      reads `codeArenas
    {
      set a | a in codeArenas
    }

    /** The block is in the used part of an arena. */
    ghost predicate Held(b: Block)
      reads `codeArenas, Arenas()
    {
      exists a :: a in codeArenas && a.addr <= b.addr && b.End() <= a.cursor
    }

    /** The arenas are distinct and page-aligned, whatever was requested. */
    ghost predicate Usable()
      reads `codeArenas, Arenas()
    {
      && page > 0 && page % 4 == 0
      && (forall a :: a in codeArenas ==> a.Valid() && a.addr > 0 && Aligned(a.addr, page) && Aligned(a.size, page))
      && forall i, j :: 0 <= i < j < |codeArenas| ==> codeArenas[i] != codeArenas[j]
    }

    /** They do not overlap either, as long as no request has overrun its gap. */
    ghost predicate ArenasOk()
      reads `codeArenas, Arenas()
    {
      Usable() && forall i, j :: 0 <= i < j < |codeArenas| ==> Apart(codeArenas[i], codeArenas[j])
    }

    /** Moreover every block returned is in one of them, and no two of them overlap. */
    ghost predicate Valid()
      reads this, Arenas()
    {
      ArenasOk() && (forall b :: b in issued ==> Held(b)) && NoOverlap(issued)
    }

    /** Any two executable blocks ever handed out, placeholders included, are disjoint, as long as no
        request has overrun. */
    lemma BlocksDisjoint(i: nat, k: nat, j: nat, l: nat)
      requires ArenasOk() && i < |codeArenas| && j < |codeArenas| && k < |codeArenas[i].blocks| && l < |codeArenas[j].blocks|
      requires (i, k) != (j, l)
      ensures var b, c := codeArenas[i].blocks[k], codeArenas[j].blocks[l]; Disjoint(b.addr, b.End(), c.addr, c.End())
    {
      var b, c := codeArenas[i].blocks[k], codeArenas[j].blocks[l];
      assert b in codeArenas[i].blocks && c in codeArenas[j].blocks;
      assert codeArenas[i] in codeArenas && codeArenas[j] in codeArenas;
      if i < j {
        assert Apart(codeArenas[i], codeArenas[j]);
      } else if j < i {
        assert Apart(codeArenas[j], codeArenas[i]);
      }
    }

    constructor (page: nat)
      requires page > 0 && page % 4 == 0
      ensures Valid() && codeArenas == [] && issued == [] && this.page == page
    {
      this.page, codeArenas, issued := page, [], [];
    }

    /** What a request leaves as it was: the arenas before, with their earlier blocks in front. */
    twostate predicate Grown()
      reads this, Arenas()
    {
      && |old(codeArenas)| <= |codeArenas|
      && forall i :: 0 <= i < |old(codeArenas)| ==>
           codeArenas[i] == old(codeArenas)[i] && old(codeArenas[i].blocks) <= codeArenas[i].blocks
    }

    /** What is left of an arena overlaps no block returned so far. */
    lemma RoomIsClear(i: nat)
      requires Valid() && i < |codeArenas|
      ensures forall b :: b in issued ==> Disjoint(b.addr, b.End(), codeArenas[i].cursor, codeArenas[i].End())
    {
      assert codeArenas[i] in codeArenas;
      forall b | b in issued ensures Disjoint(b.addr, b.End(), codeArenas[i].cursor, codeArenas[i].End()) {
        assert Held(b);
        var a :| a in codeArenas && a.addr <= b.addr && b.End() <= a.cursor;
        var j :| 0 <= j < |codeArenas| && codeArenas[j] == a;
        if j < i {
          assert Apart(codeArenas[j], codeArenas[i]);
        } else if i < j {
          assert Apart(codeArenas[i], codeArenas[j]);
        }
      }
    }

    lemma ArenaOrder(i: nat)
      requires Usable() && i < |codeArenas|
      ensures codeArenas[i].addr <= codeArenas[i].cursor
    {
      assert codeArenas[i] in codeArenas;
    }

    method AddArena(addr: nat, size: nat) returns (arena: MemoryArena)
      requires Usable() && addr > 0 && Aligned(addr, page) && Aligned(size, page)
      requires forall a :: a in codeArenas ==> Disjoint(a.addr, a.End(), addr, addr + size)
      modifies this`codeArenas
      ensures Usable() && (old(Valid()) ==> Valid())
      ensures fresh(arena) && codeArenas == old(codeArenas) + [arena]
      ensures arena.addr == addr && arena.size == size && arena.cursor == addr && arena.blocks == []
    {
      hide Aligned;
      arena := new MemoryArena(addr, size);
      codeArenas := codeArenas + [arena];
      assert forall b :: old(Held(b)) ==> Held(b);
    }

    /** allocateExecBlock: the first arena with room, arena k, or else a new one of whole pages; mapped
        is where mmap puts it, should it be needed. */
    method AllocateExecBlock(size: nat, mapped: nat) returns (block: Block, ghost k: nat)
      requires Usable() && mapped > 0 && Aligned(mapped, page)
      requires forall a :: a in codeArenas ==> Disjoint(a.addr, a.End(), mapped, mapped + AlignCeil(size, page))
      modifies this`codeArenas, this`issued, Arenas()
      ensures Usable() && (old(Valid()) ==> Valid())
      ensures Grown() && block.size == size && issued == old(issued) + [block]
      ensures k <= |old(codeArenas)| && forall j :: 0 <= j < k ==> old(codeArenas[j].Room()) < size
      ensures k < |old(codeArenas)| ==>
        old(codeArenas[k].Room()) >= size && codeArenas == old(codeArenas) && block.addr == old(codeArenas[k].cursor)
      ensures k == |old(codeArenas)| ==>
        |codeArenas| == k + 1 && block.addr == codeArenas[k].addr == mapped && codeArenas[k].size == AlignCeil(size, page)
          && fresh(codeArenas[k])
      ensures codeArenas[k].cursor == block.End()
    {
      CeilFacts(size, page);
      hide AlignCeil, Aligned, Usable, ArenasOk, Held, NoOverlap;
      var i := 0;
      while i < |codeArenas|
        invariant 0 <= i <= |codeArenas| && codeArenas == old(codeArenas) && issued == old(issued)
        invariant Usable() && (old(Valid()) ==> Valid())
        invariant forall a :: a in codeArenas ==> unchanged(a)
        invariant forall j :: 0 <= j < i ==> old(codeArenas[j].Room()) < size
      {
        var r := TakeFrom(i, size);
        if r.Some? {
          return r.value, i;
        }
        i := i + 1;
      }
      k := i;
      block := TakeFromNew(mapped, AlignCeil(size, page), size);
    }

    /** A new arena and its first block. */
    method TakeFromNew(mapped: nat, total: nat, size: nat) returns (block: Block)
      requires Usable() && mapped > 0 && Aligned(mapped, page) && Aligned(total, page) && size <= total
      requires forall a :: a in codeArenas ==> Disjoint(a.addr, a.End(), mapped, mapped + total)
      modifies this`codeArenas, this`issued, Arenas()
      ensures Usable() && (old(Valid()) ==> Valid())
      ensures Grown() && block == Block(mapped, size) && issued == old(issued) + [block]
      ensures |codeArenas| == |old(codeArenas)| + 1 && codeArenas[|old(codeArenas)|].addr == mapped
      ensures codeArenas[|old(codeArenas)|].size == total && fresh(codeArenas[|old(codeArenas)|])
      ensures codeArenas[|old(codeArenas)|].cursor == block.End()
    {
      hide Aligned, Usable, ArenasOk, Held, NoOverlap;
      var arena := AddArena(mapped, total);
      var r := TakeFrom(|codeArenas| - 1, size);
      block := r.value;
    }

    /** The request is answered with a block; disjoint says that it has just been taken from the room of
        arena i and overlaps none of the others. */
    ghost method Issue(i: nat, block: Block, disjoint: bool)
      requires disjoint ==>
        && NoOverlap(issued) && i < |codeArenas|
        && (forall b :: b in issued ==> Held(b) && Disjoint(b.addr, b.End(), block.addr, block.End()))
        && codeArenas[i].addr <= block.addr && block.End() <= codeArenas[i].cursor
      modifies `issued
      ensures issued == old(issued) + [block]
      ensures disjoint ==> NoOverlap(issued) && forall b :: b in issued ==> Held(b)
    {
      if disjoint {
        assert codeArenas[i] in codeArenas && Held(block);
        hide NoOverlap, Held;
        NewInRoom(issued, block);
      }
      issued := issued + [block];
    }

    /** Arena i hands out a block at `at`, behind a placeholder if need be. */
    method Skip(i: nat, at: nat, size: nat) returns (block: Block)
      requires Usable() && i < |codeArenas| && codeArenas[i].cursor <= at && at + size <= codeArenas[i].End()
      modifies Arenas()
      ensures Usable() && (old(ArenasOk()) ==> ArenasOk())
      ensures Grown() && block == Block(at, size) && codeArenas[i].cursor == at + size
      ensures forall b :: old(Held(b)) ==> Held(b)
    {
      hide Aligned;
      var arena := codeArenas[i];
      block := arena.AllocBehindPlaceholder(at, size);
    }

    /** allocMemBlock of arena i. */
    method Take(i: nat, size: nat) returns (r: Option<Block>)
      requires Usable() && i < |codeArenas|
      modifies Arenas()
      ensures Usable() && (old(ArenasOk()) ==> ArenasOk())
      ensures Grown() && codeArenas == old(codeArenas)
      ensures r.Some? <==> old(codeArenas[i].Room()) >= size
      ensures r.Some? ==> r.value == Block(old(codeArenas[i].cursor), size) && codeArenas[i].cursor == r.value.End()
      ensures r.None? ==> forall a :: a in codeArenas ==> unchanged(a)
      ensures forall b :: old(Held(b)) ==> Held(b)
    {
      hide Aligned;
      var arena := codeArenas[i];
      r := arena.AllocMemBlock(size);
    }

    /** allocMemBlock of arena i; a block that it yields is the answer to the request. */
    method TakeFrom(i: nat, size: nat) returns (r: Option<Block>)
      requires Usable() && i < |codeArenas|
      modifies this`issued, Arenas()
      ensures Usable() && (old(Valid()) ==> Valid())
      ensures Grown() && codeArenas == old(codeArenas)
      ensures r.Some? <==> old(codeArenas[i].Room()) >= size
      ensures r.Some? ==> r.value == Block(old(codeArenas[i].cursor), size) && issued == old(issued) + [r.value]
      ensures r.Some? ==> codeArenas[i].cursor == r.value.End()
      ensures r.None? ==> issued == old(issued) && forall a :: a in codeArenas ==> unchanged(a)
    {
      ghost var valid := Valid();
      if valid {
        RoomIsClear(i);
      }
      ArenaOrder(i);
      hide Usable, ArenasOk, NoOverlap, Held;
      r := Take(i, size);
      if r.Some? {
        Issue(i, r.value, valid);
      }
    }

    /** Skips to `at` and hands out a block there. */
    method PlaceAt(i: nat, at: nat, size: nat) returns (block: Block)
      requires Usable() && i < |codeArenas| && codeArenas[i].cursor <= at && at + size <= codeArenas[i].End()
      modifies this`issued, Arenas()
      ensures Usable() && (old(Valid()) ==> Valid())
      ensures Grown() && codeArenas == old(codeArenas)
      ensures block == Block(at, size) && issued == old(issued) + [block]
    {
      ghost var valid := Valid();
      if valid {
        RoomIsClear(i);
      }
      ArenaOrder(i);
      hide Usable, ArenasOk, NoOverlap, Held;
      block := Skip(i, at, size);
      Issue(i, block, valid);
    }

    /** No arena has room for a near block. */
    ghost predicate NoRoom(size: nat, pos: nat, range: nat)
      requires range <= pos
      reads this, Arenas()
    {
      forall a :: a in codeArenas ==> FitIn(a.cursor, a.addr + a.size, pos - range, pos + range, size) == 0
    }

    /** Where the first arena from i on with room for a near block has it; 0 if there is none. */
    ghost function PlaceFrom(i: nat, size: nat, pos: nat, range: nat): (r: nat)
      requires i <= |codeArenas| && range <= pos
      reads this, Arenas()
      ensures r == 0 <==> forall a :: a in codeArenas[i..] ==> FitIn(a.cursor, a.addr + a.size, pos - range, pos + range, size) == 0
      decreases |codeArenas| - i
    {
      if i == |codeArenas| then 0
      else
        var a := codeArenas[i];
        assert codeArenas[i..] == [a] + codeArenas[i + 1..];
        var at := FitIn(a.cursor, a.addr + a.size, pos - range, pos + range, size);
        if at != 0 then at else PlaceFrom(i + 1, size, pos, range)
    }

    /** allocateNearBlockFromDefaultAllocator for executable memory. */
    method AllocateNearFromArenas(size: nat, pos: nat, range: nat) returns (r: Option<Block>)
      requires Usable() && range <= pos
      modifies this`issued, Arenas()
      ensures Usable() && (old(Valid()) ==> Valid())
      ensures Grown() && codeArenas == old(codeArenas)
      ensures r.None? <==> old(NoRoom(size, pos, range))
      ensures r.Some? ==> r.value == Block(old(PlaceFrom(0, size, pos, range)), size)
      ensures r.Some? ==> Near(r.value, pos, range) && issued == old(issued) + [r.value]
      ensures r.None? ==> issued == old(issued) && forall a :: a in codeArenas ==> unchanged(a)
    {
      hide FitIn, Usable, ArenasOk, Held, NoOverlap;
      var i := 0;
      assert codeArenas[0..] == codeArenas;
      while i < |codeArenas|
        invariant 0 <= i <= |codeArenas|
        invariant PlaceFrom(0, size, pos, range) == PlaceFrom(i, size, pos, range)
      {
        var arena := codeArenas[i];
        var unused := FitIn(arena.cursor, arena.addr + arena.size, pos - range, pos + range, size);
        if unused != 0 {
          assert arena in old(codeArenas);
          var block := PlaceAt(i, unused, size);
          return Some(block);
        }
        i := i + 1;
      }
      return None;
    }

    /** allocateNearBlockFromUnusedRegion for executable memory, on the mappings of the process;
        mapped says whether the fixed mapping succeeds. */
    method AllocateNearFromUnusedRegion(size: nat, pos: nat, range: nat, regions: seq<Region>, mapped: bool) returns (r: Option<Block>)
      requires Usable() && range <= pos && LayoutOk(regions)
      modifies this`codeArenas, this`issued
      ensures Usable() && (old(Valid()) && !Overruns(regions, pos, range, size) ==> Valid())
      ensures r.Some? <==> mapped && FirstGap(regions, pos, range, size) + 1 < |regions|
      ensures r.None? ==> codeArenas == old(codeArenas) && issued == old(issued)
      ensures r.Some? ==> r.value.size == size && Near(r.value, pos, range) && issued == old(issued) + [r.value]
      ensures r.Some? ==> NewArena(old(codeArenas), r.value, regions[FirstGap(regions, pos, range, size)].End(),
        regions[FirstGap(regions, pos, range, size) + 1].start, Overruns(regions, pos, range, size))
      ensures r.Some? ==> fresh(codeArenas[|old(codeArenas)|])
      ensures Grown() && (old(Valid()) ==> NoOverlap(issued))
    {
      hide AlignFloor, Aligned, FitIn;
      r := None;
      var i, unused := FindUnused(size, pos, range, regions);
      if unused == 0 {
        return;
      }
      ghost var next := regions[i + 1].start;
      AlignedSum(regions[i].start, regions[i].size, page);
      GapFacts(regions[i].End(), next, page, unused, size);
      var first := AlignFloor(unused, page);
      var last := AlignFloor(unused + size, page);
      if !mapped {
        return;
      }
      var block := MapNear(first, last - first + page, unused, size, regions[i].End(), next);
      return Some(block);
    }

    /** What a near mapping in the gap up to `next` leaves: one more arena, which starts in the gap
        and ends there too, unless it overruns: then it takes the first page of the mapping at
        `next`, and its remaining room is that page. */
    ghost predicate NewArena(before: seq<MemoryArena>, block: Block, gap: nat, next: nat, overrun: bool)
      requires page > 0
      reads this, Arenas()
    {
      && |codeArenas| == |before| + 1 && codeArenas[..|before|] == before
      && var arena := codeArenas[|before|];
      && gap <= arena.addr == AlignFloor(block.addr, page) <= block.addr && block.End() == arena.cursor <= next
      && if overrun then arena.cursor == next && arena.End() == next + page else arena.End() <= next
    }

    /** The first gap between two mappings that has room in range. */
    static method FindUnused(size: nat, pos: nat, range: nat, regions: seq<Region>) returns (i: nat, unused: nat)
      requires range <= pos
      ensures i == FirstGap(regions, pos, range, size)
      ensures unused == if i + 1 < |regions| then FitGap(regions, i, pos, range, size) else 0
      ensures i + 1 < |regions| ==> unused > 0
    {
      hide FitGap;
      i, unused := 0, 0;
      while i + 1 < |regions|
        invariant unused == 0 && FirstGap(regions, pos, range, size) == FirstGapFrom(regions, i, pos, range, size)
      {
        unused := FitGap(regions, i, pos, range, size);
        if unused != 0 {
          return;
        }
        i := i + 1;
      }
    }

    /** register_near_arena, and the block at `at` behind a placeholder. */
    method MapNear(first: nat, size: nat, at: nat, blockSize: nat, ghost gap: nat, ghost next: nat) returns (block: Block)
      requires Usable() && 0 < gap <= first <= at && at + blockSize <= first + size && at + blockSize <= next
      requires Aligned(first, page) && Aligned(size, page)
      requires forall a :: a in codeArenas ==> Disjoint(gap, next, a.addr, a.End())
      modifies this`codeArenas, this`issued
      ensures block == Block(at, blockSize) && issued == old(issued) + [block]
      ensures |codeArenas| == |old(codeArenas)| + 1 && codeArenas[..|old(codeArenas)|] == old(codeArenas)
      ensures codeArenas[|old(codeArenas)|].addr == first && codeArenas[|old(codeArenas)|].size == size
      ensures codeArenas[|old(codeArenas)|].cursor == at + blockSize && fresh(codeArenas[|old(codeArenas)|])
      ensures Usable() && Grown() && (old(Valid()) ==> NoOverlap(issued))
      ensures old(Valid()) && first + size <= next ==> Valid()
    {
      ghost var valid := Valid();
      if valid {
        BlocksOutside(gap, next);
      }
      block := AddNearArena(first, size, at, blockSize, gap, next);
      hide Usable, ArenasOk, NoOverlap, Held;
      Issue(|codeArenas| - 1, block, valid);
    }

    method AddNearArena(first: nat, size: nat, at: nat, blockSize: nat, ghost gap: nat, ghost next: nat) returns (block: Block)
      requires Usable() && 0 < gap <= first <= at && at + blockSize <= first + size
      requires Aligned(first, page) && Aligned(size, page)
      requires forall a :: a in codeArenas ==> Disjoint(gap, next, a.addr, a.End())
      modifies this`codeArenas
      ensures |codeArenas| == |old(codeArenas)| + 1 && codeArenas[..|old(codeArenas)|] == old(codeArenas)
      ensures codeArenas[|old(codeArenas)|].addr == first && codeArenas[|old(codeArenas)|].size == size
      ensures block == Block(at, blockSize) && codeArenas[|old(codeArenas)|].cursor == block.End()
      ensures fresh(codeArenas[|old(codeArenas)|])
      ensures Usable() && Grown() && (old(ArenasOk()) && first + size <= next ==> ArenasOk())
      ensures forall b :: old(Held(b)) ==> Held(b)
    {
      hide Aligned;
      var arena := new MemoryArena(first, size);
      block := arena.AllocBehindPlaceholder(at, blockSize);
      codeArenas := codeArenas + [arena];
    }

    /** A gap that no arena reaches into holds no block returned so far. */
    lemma BlocksOutside(gap: nat, next: nat)
      requires Valid() && forall a :: a in codeArenas ==> Disjoint(gap, next, a.addr, a.End())
      ensures forall b :: b in issued && gap < next ==> Disjoint(b.addr, b.End(), gap, next)
    {
      forall b | b in issued && gap < next ensures Disjoint(b.addr, b.End(), gap, next) {
        assert Held(b);
      }
    }

    /** allocateNearBlock. Every block lies within range. As long as no request overruns, the arenas stay
        apart and the block overlaps none returned before; the request overruns when no arena has room
        and it asks for the very end of the first gap with room. */
    method AllocateNearBlock(size: nat, pos: nat, range: nat, regions: seq<Region>, mapped: bool) returns (r: Option<Block>)
      requires Usable() && range <= pos && LayoutOk(regions)
      modifies this`codeArenas, this`issued, Arenas()
      ensures r.Some? <==> old(!NoRoom(size, pos, range)) || (mapped && FirstGap(regions, pos, range, size) + 1 < |regions|)
      ensures r.None? ==> codeArenas == old(codeArenas) && issued == old(issued) && forall a :: a in codeArenas ==> unchanged(a)
      ensures r.Some? ==> r.value.size == size && Near(r.value, pos, range) && issued == old(issued) + [r.value]
      ensures Usable() && Grown() && (old(Valid()) ==> NoOverlap(issued))
      ensures old(Valid()) && (r.None? || old(!NoRoom(size, pos, range)) || !Overruns(regions, pos, range, size)) ==> Valid()
      ensures old(!NoRoom(size, pos, range)) ==> r.value.addr == old(PlaceFrom(0, size, pos, range)) && codeArenas == old(codeArenas)
      ensures r.Some? && old(NoRoom(size, pos, range)) ==> NewArena(old(codeArenas), r.value,
        regions[FirstGap(regions, pos, range, size)].End(), regions[FirstGap(regions, pos, range, size) + 1].start,
        Overruns(regions, pos, range, size))
      ensures r.Some? && old(NoRoom(size, pos, range)) ==> fresh(codeArenas[|old(codeArenas)|])
      ensures old(NoRoom(size, pos, range)) ==> forall a :: a in old(codeArenas) ==> unchanged(a)
    {
      r := AllocateNearFromArenas(size, pos, range);
      if r.Some? {
        return;
      }
      r := AllocateNearFromUnusedRegion(size, pos, range, regions, mapped);
    }

    /** The mappings are sorted, page-aligned and do not overlap, and no arena reaches into a gap
        between two of them. */
    ghost predicate LayoutOk(regions: seq<Region>)
      requires page > 0
      reads this, Arenas()
    {
      && (forall i :: 0 <= i < |regions| ==>
            regions[i].End() > 0 && Aligned(regions[i].start, page) && Aligned(regions[i].size, page))
      && (forall i :: 0 <= i < |regions| - 1 ==> regions[i].End() <= regions[i + 1].start)
      && forall i, a :: 0 <= i < |regions| - 1 && a in codeArenas ==>
           Disjoint(regions[i].End(), regions[i + 1].start, a.addr, a.End())
    }
  }

  lemma OverrunFacts(regions: seq<Region>, pos: nat)
    requires regions == [Region(0x1_0000_0000, 0x1000), Region(0x1_0001_0000, 0x1000)] && pos == 0x8000_0000 + 0x1_0001_0000 - 20
    ensures FirstGap(regions, pos, 0x8000_0000, 20) == 0 && Overruns(regions, pos, 0x8000_0000, 20)
  {
    assert FitGap(regions, 0, pos, 0x8000_0000, 20) == 0x1_0001_0000 - 20;
    assert FirstGapFrom(regions, 0, pos, 0x8000_0000, 20) == 0;
  }

  lemma LastPage()
    ensures AlignFloor(0x1_0001_0000 - 20, 0x1000) == 0x1_0000_F000
  {
  }

  lemma OnePage()
    ensures AlignCeil(0x1000, 0x1000) == 0x1000
  {
  }

  lemma OnPage(k: nat)
    ensures Aligned(k * 0x1000, 0x1000)
  {
  }

  /** A request that overruns: the operand of a six-byte instruction 2 GiB above the last twenty
      bytes of a gap. The new arena takes the first page of the mapping behind the gap. */
  method OverrunHappens() returns (allocator: MemoryAllocator, block: Block)
    ensures block.End() == 0x1_0001_0000 && |allocator.codeArenas| == 1
    ensures allocator.codeArenas[0].End() == 0x1_0001_1000
  {
    hide FirstGap, Overruns, AlignFloor, AlignCeil, Aligned;
    LastPage();
    OnePage();
    OnPage(0x1);
    OnPage(0x10_0000);
    OnPage(0x10_0010);
    var regions := [Region(0x1_0000_0000, 0x1000), Region(0x1_0001_0000, 0x1000)];
    var pos := 0x8000_0000 + 0x1_0001_0000 - 20;
    OverrunFacts(regions, pos);
    allocator := new MemoryAllocator(0x1000);
    var r := allocator.AllocateNearBlock(20, pos, 0x8000_0000, regions, true);
    block := r.value;
  }

  /** An allocator whose only arena is handed out as a whole. */
  method FullArena() returns (allocator: MemoryAllocator, exec: Block)
    ensures allocator.Usable() && fresh(allocator) && allocator.page == 0x1000 && exec == Block(0x1_0001_0000, 0x1000)
    ensures |allocator.codeArenas| == 1 && fresh(allocator.codeArenas[0])
    ensures var a := allocator.codeArenas[0]; a.addr == 0x1_0001_0000 && a.size == 0x1000 && a.cursor == a.End()
  {
    hide AlignFloor, AlignCeil, Aligned;
    OnePage();
    OnPage(0x10_0010);
    allocator := new MemoryAllocator(0x1000);
    ghost var k;
    exec, k := allocator.AllocateExecBlock(0x1000, 0x1_0001_0000);
  }

  /** The overrunning request where that arena is the mapping behind the gap. */
  method OverrunOntoArena(pos: nat) returns (allocator: MemoryAllocator, exec: Block, first: Block)
    requires pos == 0x8000_0000 + 0x1_0001_0000 - 20
    ensures allocator.Usable() && fresh(allocator) && fresh(allocator.Arenas()) && allocator.page == 0x1000
    ensures exec == Block(0x1_0001_0000, 0x1000) && first.End() == 0x1_0001_0000
    ensures |allocator.codeArenas| == 2
    ensures var a := allocator.codeArenas[0]; a.addr == 0x1_0001_0000 && a.size == 0x1000 && a.cursor == a.End()
    ensures var a := allocator.codeArenas[1]; a.addr == 0x1_0000_F000 && a.cursor == 0x1_0001_0000 && a.End() == 0x1_0001_1000
  {
    hide FirstGap, Overruns, AlignFloor, AlignCeil, Aligned;
    LastPage();
    OnPage(0x1);
    OnPage(0x10_0000);
    OnPage(0x10_0010);
    var regions := [Region(0x1_0000_0000, 0x1000), Region(0x1_0001_0000, 0x1000)];
    OverrunFacts(regions, pos);
    allocator, exec := FullArena();
    ghost var arena := allocator.codeArenas[0];
    assert allocator.codeArenas == [arena];
    var r := allocator.AllocateNearBlock(20, pos, 0x8000_0000, regions, true);
    first := r.value;
    assert allocator.codeArenas == [arena, allocator.codeArenas[1]];
  }

  /** After that request the same request again is answered with memory of that arena. */
  method OverrunOverlaps() returns (exec: Block, first: Block, second: Block)
    ensures exec == Block(0x1_0001_0000, 0x1000) && first.End() == 0x1_0001_0000 && second == Block(0x1_0001_0000, 20)
    ensures !Disjoint(exec.addr, exec.End(), second.addr, second.End())
  {
    hide FirstGap, Overruns, AlignFloor, Aligned;
    LastPage();
    OnPage(0x1);
    OnPage(0x2);
    OnPage(0x10_0000);
    OnPage(0x10_000F);
    var pos := 0x8000_0000 + 0x1_0001_0000 - 20;
    var allocator;
    allocator, exec, first := OverrunOntoArena(pos);
    var regions := [Region(0x1_0000_0000, 0x1000), Region(0x1_0000_F000, 0x2000)];
    ghost var a, b := allocator.codeArenas[0], allocator.codeArenas[1];
    assert allocator.codeArenas == [a, b];
    assert allocator.PlaceFrom(1, 20, pos, 0x8000_0000) == 0x1_0001_0000;
    assert allocator.PlaceFrom(0, 20, pos, 0x8000_0000) == allocator.PlaceFrom(1, 20, pos, 0x8000_0000);
    var r := allocator.AllocateNearBlock(20, pos, 0x8000_0000, regions, true);
    second := r.value;
  }

  // ----- near blocks -----

  /** The block lies within `range` of pos. */
  ghost predicate Near(b: Block, pos: nat, range: nat) { pos - range <= b.addr && b.End() <= pos + range }

  function Max(a: int, b: int): int { if a > b then a else b }
  function Min(a: int, b: int): int { if a < b then a else b }

  /** The lambdas of the near allocator: where in the unused memory from `start` to `stop` a block
      of this size fits within the valid addresses; 0 if nowhere. */
  function FitIn(start: nat, stop: nat, minValid: nat, maxValid: nat, size: nat): (r: nat)
    ensures r > 0 ==> start <= r && minValid <= r && r + size <= stop && r + size <= maxValid
    ensures start > 0 && Max(start, minValid) + Max(size, 1) <= Min(stop, maxValid) ==> r > 0
    ensures r > 0 ==> r == Max(start, minValid)
  {
    if stop < minValid || start > maxValid then 0
    else
      var lo, hi := Max(start, minValid), Min(stop, maxValid);
      if lo >= hi then 0 else if hi - lo < size then 0 else lo
  }

  /** Where a block fits between mapping i and the next one; 0 if nowhere. */
  function FitGap(regions: seq<Region>, i: nat, pos: nat, range: nat, size: nat): nat
    requires i + 1 < |regions| && range <= pos
  {
    FitIn(AlignFloor(regions[i].End(), 4), regions[i + 1].start, pos - range, pos + range, size)
  }

  /** The first mapping from i on behind which a block fits; if there is none, the last mapping or
      beyond. */
  function FirstGapFrom(regions: seq<Region>, i: nat, pos: nat, range: nat, size: nat): (r: nat)
    requires range <= pos
    ensures r >= i && (r + 1 < |regions| ==> FitGap(regions, r, pos, range, size) != 0)
    ensures forall j :: i <= j < r && j + 1 < |regions| ==> FitGap(regions, j, pos, range, size) == 0
    decreases |regions| - i
  {
    if i + 1 >= |regions| || FitGap(regions, i, pos, range, size) != 0 then i else FirstGapFrom(regions, i + 1, pos, range, size)
  }

  function FirstGap(regions: seq<Region>, pos: nat, range: nat, size: nat): nat
    requires range <= pos
  {
    FirstGapFrom(regions, 0, pos, range, size)
  }

  /** The request asks for the very end of the first gap that has room. */
  predicate Overruns(regions: seq<Region>, pos: nat, range: nat, size: nat)
    requires range <= pos
  {
    var i := FirstGap(regions, pos, range, size);
    i + 1 < |regions| && Max(AlignFloor(regions[i].End(), 4), pos - range) + size == regions[i + 1].start
  }

  /** The pages mapped for a block at `at` in the gap from `start` to `next`: they cover the block
      and stay in the gap unless the block ends exactly where the gap does; then they take one
      page of the mapping after it. */
  lemma GapFacts(start: nat, next: nat, page: nat, at: nat, size: nat)
    requires page > 0 && page % 4 == 0 && Aligned(start, page) && Aligned(next, page)
    requires AlignFloor(start, 4) <= at && at + size <= next
    ensures var first, end_ := AlignFloor(at, page), AlignFloor(at + size, page) + page;
      && start <= first <= at && at + size < end_ && first < end_
      && Aligned(first, page) && Aligned(end_ - first, page)
      && (end_ <= next <==> at + size < next)
      && (at + size == next ==> end_ == next + page)
  {
    hide Aligned, AlignFloor;
    FourDivides(start, page);
    FloorFacts(at, start, page);
    FloorFacts(at + size, next, page);
    FloorFacts(at + size, AlignFloor(at, page), page);
    PageAligned(page);
    AlignedSum(AlignFloor(at + size, page), page, page);
    AlignedSum(AlignFloor(at + size, page) + page, AlignFloor(at, page), page);
  }

  lemma PageAligned(page: nat)
    requires page > 0
    ensures Aligned(page, page)
  {
    MulMod(1, page);
  }

  /** A block within 2 GiB of dst that holds an instruction of this length and the 14-byte jump
      back: the instruction's displacement to dst fits 32 bits. */
  lemma Rel32Fits(b: Block, length: nat, dst: nat)
    requires Near(b, dst, 0x8000_0000) && length > 0 && b.size == length + 14
    ensures -0x8000_0000 <= dst - (b.addr + length) <= 0x7FFF_FFFF
  {
  }

  lemma FourDivides(a: nat, page: nat)
    requires page > 0 && page % 4 == 0 && Aligned(a, page)
    ensures AlignFloor(a, 4) == a
  {
    DivMod(a, page);
    var m, k := page / 4, a / page;
    assert a == 4 * m * k == 4 * (m * k);
  }

  lemma {:induction false} NewInRoom(blocks: seq<Block>, block: Block)
    requires NoOverlap(blocks) && forall b :: b in blocks ==> Disjoint(b.addr, b.End(), block.addr, block.End())
    ensures NoOverlap(blocks + [block])
  {
    forall i, j | 0 <= i < j < |blocks + [block]|
      ensures Disjoint((blocks + [block])[i].addr, (blocks + [block])[i].End(), (blocks + [block])[j].addr, (blocks + [block])[j].End())
    {
      if j == |blocks| {
        assert blocks[i] in blocks;
      }
    }
  }

  ghost predicate NoOverlap(blocks: seq<Block>) {
    forall i, j :: 0 <= i < j < |blocks| ==> Disjoint(blocks[i].addr, blocks[i].End(), blocks[j].addr, blocks[j].End())
  }

  ghost predicate Apart(a: MemoryArena, b: MemoryArena) { Disjoint(a.addr, a.End(), b.addr, b.End()) }
}
