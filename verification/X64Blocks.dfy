/** The x64 relocator's loops: a block of instructions, and the retry with more memory. */
module X64Blocks {
  import opened X64Machine
  import opened X64Relocator

  type Decoder = seq<Byte> -> Decoded

  type Address = a: int | 0 <= a < TWO64

  /** The near allocator's answer to the k-th request of a pass: size and target address; 0 is null. */
  type NearAllocator = (nat, nat, nat) -> Address

  // ----- which instructions -----

  /** From c on, every instruction before `size` is within the buffer, and the offsets reported are
      within the instruction. */
  predicate Walkable(dec: Decoder, buffer: seq<Byte>, c: nat, size: nat)
    decreases size - c
  {
    c < size ==>
      && c < |buffer|
      && Sane(dec(buffer[c..]), |buffer| - c)
      && Walkable(dec, buffer, c + dec(buffer[c..]).length, size)
  }

  predicate Sane(d: Decoded, available: nat) {
    0 < d.length <= 15 && d.length <= available && d.dispOffset <= d.length && d.immOffset <= d.length
  }

  /** The instructions that the loop visits, up to the first cursor at or past `size`. */
  function Walk(dec: Decoder, buffer: seq<Byte>, c: nat, size: nat): seq<Decoded>
    requires Walkable(dec, buffer, c, size)
    decreases size - c
  {
    if c >= size then []
    else
      var d := dec(buffer[c..]);
      [d] + Walk(dec, buffer, c + d.length, size)
  }

  function Lengths(ds: seq<Decoded>): nat { if ds == [] then 0 else ds[0].length + Lengths(ds[1..]) }
  function Sizes(ds: seq<Decoded>): nat { if ds == [] then 0 else EmitSize(ds[0]) + Sizes(ds[1..]) }

  /** The size that a pass writes back to `origin` selects the same instructions on the next pass. */
  lemma {:induction false} RetrySelectsSame(dec: Decoder, buffer: seq<Byte>, c: nat, size: nat)
    requires Walkable(dec, buffer, c, size)
    ensures var ds := Walk(dec, buffer, c, size);
      && (size <= c + Lengths(ds) || c >= size)
      && Walkable(dec, buffer, c, c + Lengths(ds)) && Walk(dec, buffer, c, c + Lengths(ds)) == ds
    decreases size - c
  {
    if c < size {
      var d := dec(buffer[c..]);
      RetrySelectsSame(dec, buffer, c + d.length, size);
    }
  }

  // ----- where they go -----

  /** One relocated instruction: its report, the buffer from it on, and its addresses. */
  datatype Item = Item(d: Decoded, bs: seq<Byte>, orig: nat, relo: nat, seqAddr: nat)

  function Next(i: Item): nat { U64(i.orig + i.d.length) }

  function Layout(dec: Decoder, buffer: seq<Byte>, c: nat, size: nat, orig: nat, relo: nat, near: NearAllocator, k: nat): seq<Item>
    requires Walkable(dec, buffer, c, size)
    decreases size - c
  {
    if c >= size then []
    else
      var bs := buffer[c..];
      var d := dec(bs);
      [Placement(d, bs, orig, relo, near, k)] + Layout(dec, buffer, c + d.length, size, orig + d.length, relo + EmitSize(d), near, k + 1)
  }

  function Placement(d: Decoded, bs: seq<Byte>, orig: nat, relo: nat, near: NearAllocator, k: nat): Item {
    Item(d, bs, orig, relo, if ShapeOf(d) == RipRelative then near(k, d.length + 14, Target(d, U64(orig + d.length))) else 0)
  }

  predicate ItemOk(i: Item) {
    && i.d.length <= |i.bs| && i.seqAddr < TWO64 && i.relo + 14 < TWO64
    && i.d.dispOffset <= i.d.length && i.d.immOffset <= i.d.length
  }

  predicate ItemsOk(items: seq<Item>) { forall k :: 0 <= k < |items| ==> ItemOk(items[k]) }

  function CodeOf(i: Item): (r: seq<Byte>)
    requires ItemOk(i)
    ensures |r| == EmitSize(i.d)
  {
    Emit(i.d, i.bs, Next(i), i.seqAddr)
  }

  function Code(items: seq<Item>): (r: seq<Byte>)
    requires ItemsOk(items)
  {
    if items == [] then [] else CodeOf(items[0]) + Code(items[1..])
  }

  /** The side sequences, each with its address. */
  function Patches(items: seq<Item>): seq<(nat, seq<Byte>)>
    requires ItemsOk(items)
  {
    if items == [] then [] else PatchOf(items[0]) + Patches(items[1..])
  }

  function PatchOf(i: Item): seq<(nat, seq<Byte>)>
    requires ItemOk(i)
  {
    if ShapeOf(i.d) == RipRelative then [(i.seqAddr, SideSequence(i.d, i.bs, Next(i), i.seqAddr, i.relo + 14))] else []
  }

  lemma {:induction false} LayoutOk(dec: Decoder, buffer: seq<Byte>, c: nat, size: nat, orig: nat, relo: nat, near: NearAllocator, k: nat)
    requires Walkable(dec, buffer, c, size) && relo + Sizes(Walk(dec, buffer, c, size)) + 14 < TWO64
    ensures var items := Layout(dec, buffer, c, size, orig, relo, near, k);
      ItemsOk(items) && |Code(items)| == Sizes(Walk(dec, buffer, c, size))
    decreases size - c
  {
    hide EmitSize, Placement, CodeOf, ItemOk, Sane;
    if c < size {
      var bs := buffer[c..];
      var d := dec(bs);
      assert Walk(dec, buffer, c, size)[1..] == Walk(dec, buffer, c + d.length, size);
      PlacementOk(d, bs, orig, relo, near, k);
      LayoutOk(dec, buffer, c + d.length, size, orig + d.length, relo + EmitSize(d), near, k + 1);
      var first, rest := Placement(d, bs, orig, relo, near, k),
        Layout(dec, buffer, c + d.length, size, orig + d.length, relo + EmitSize(d), near, k + 1);
      CodeGrows(first, rest);
    }
  }

  lemma PlacementOk(d: Decoded, bs: seq<Byte>, orig: nat, relo: nat, near: NearAllocator, k: nat)
    requires Sane(d, |bs|) && relo + 14 < TWO64
    ensures ItemOk(Placement(d, bs, orig, relo, near, k)) && Placement(d, bs, orig, relo, near, k).d == d
  {
  }

  lemma CodeGrows(first: Item, rest: seq<Item>)
    requires ItemOk(first) && ItemsOk(rest)
    ensures ItemsOk([first] + rest) && |Code([first] + rest)| == EmitSize(first.d) + |Code(rest)|
  {
    hide ItemOk, EmitSize, CodeOf;
    assert ([first] + rest)[1..] == rest;
  }

  // ----- one pass -----

  class CodeMemBlock {
    var addr: nat
    var size: nat

    constructor (addr: nat, size: nat)
      ensures this.addr == addr && this.size == size
    {
      this.addr, this.size := addr, size;
    }

    method Reset(addr: nat, size: nat)
      modifies this
      ensures this.addr == addr && this.size == size
    {
      this.addr, this.size := addr, size;
    }
  }

  /** The whole relocated code: the instructions, and the jump back when there is one. */
  function Image(items: seq<Item>, branch: bool, end_: nat): seq<Byte>
    requires ItemsOk(items) && end_ < TWO64
  {
    Code(items) + if branch then AbsoluteJump(end_) else []
  }

  datatype Pass = Done(code: seq<Byte>, patches: seq<(nat, seq<Byte>)>) | TooSmall | Aborted

  predicate Supported(ds: seq<Decoded>) { forall d :: d in ds ==> !IsLoop(d) }

  ghost predicate MeetsLoop(ds: seq<Decoded>) { exists d :: d in ds && 0xE0 <= d.primary <= 0xE3 && !d.ripRelative }

  lemma LoopMet(ds: seq<Decoded>)
    ensures MeetsLoop(ds) <==> exists d :: d in ds && 0xE0 <= d.primary <= 0xE3 && !d.ripRelative
  {
  }

  function ImageSize(ds: seq<Decoded>, branch: bool): nat { Sizes(ds) + if branch then 14 else 0 }

  /** GenRelocateCodeFixed. Whatever comes of it, origin covers whole instructions afterwards. */
  method GenRelocateCodeFixed(dec: Decoder, buffer: seq<Byte>, origin: CodeMemBlock, relocated: CodeMemBlock, branch: bool,
      near: NearAllocator) returns (r: Pass)
    requires origin != relocated && Walkable(dec, buffer, 0, origin.size)
    requires relocated.addr + ImageSize(Walk(dec, buffer, 0, origin.size), true) < TWO64
    requires origin.addr + Lengths(Walk(dec, buffer, 0, origin.size)) < TWO64
    modifies origin, relocated
    ensures var ds := Walk(dec, buffer, 0, old(origin.size));
      && (r.Aborted? <==> MeetsLoop(ds))
      && (!r.Aborted? ==> origin.addr == old(origin.addr) && origin.size == Lengths(ds))
      && (!r.Aborted? ==> (r.Done? <==> ImageSize(ds, branch) <= old(relocated.size)))
      && (!r.Done? ==> relocated.addr == old(relocated.addr) && relocated.size == old(relocated.size))
    ensures r.Done? ==>
      var items := Layout(dec, buffer, 0, old(origin.size), old(origin.addr), old(relocated.addr), near, 0);
      && ItemsOk(items) && r.code == Image(items, branch, origin.addr + origin.size) && r.patches == Patches(items)
      && relocated.addr == old(relocated.addr) && relocated.size == |r.code| == ImageSize(Walk(dec, buffer, 0, old(origin.size)), branch)
  {
    hide Walk, Layout, Lengths, Sizes, Walkable, AbsoluteJump, Patches, Code, ItemsOk;
    var supported, code, patches, end_ := EmitAll(dec, buffer, origin.addr, relocated.addr, origin.size, near);
    if !supported {
      return Aborted;
    }
    ghost var items := Layout(dec, buffer, 0, origin.size, origin.addr, relocated.addr, near, 0);
    if branch {
      code := code + AbsoluteJump(end_);
    } else {
      assert code + [] == code;
    }
    origin.Reset(origin.addr, end_ - origin.addr);
    if |code| > relocated.size {
      return TooSmall;
    }
    relocated.Reset(relocated.addr, |code|);
    return Done(code, patches);
  }

  /** The loop over the instructions. */
  method EmitAll(dec: Decoder, buffer: seq<Byte>, orig: nat, relo: nat, size: nat, near: NearAllocator)
      returns (supported: bool, code: seq<Byte>, patches: seq<(nat, seq<Byte>)>, end_: nat)
    requires Walkable(dec, buffer, 0, size) && relo + Sizes(Walk(dec, buffer, 0, size)) + 14 < TWO64
    ensures var ds, items := Walk(dec, buffer, 0, size), Layout(dec, buffer, 0, size, orig, relo, near, 0);
      && ItemsOk(items) && (supported <==> Supported(ds))
      && (supported ==> code == Code(items) && patches == Patches(items) && end_ == orig + Lengths(ds) && |code| == Sizes(ds))
  {
    hide EmitSize, ShapeOf, IsLoop, PatchOf, CodeOf, Walk, Layout, Lengths, Sizes, Supported, Walkable, Code, Patches, ItemsOk;
    ghost var ds := Walk(dec, buffer, 0, size);
    ghost var all := Layout(dec, buffer, 0, size, orig, relo, near, 0);
    LayoutOk(dec, buffer, 0, size, orig, relo, near, 0);
    var cursor, k := 0, 0;
    code, patches := [], [];
    assert code + Code(all) == Code(all) && patches + Patches(all) == Patches(all);
    while cursor < size
      invariant 0 <= cursor && Walkable(dec, buffer, cursor, size)
      invariant Supported(ds) <==> Supported(Walk(dec, buffer, cursor, size))
      invariant cursor + Lengths(Walk(dec, buffer, cursor, size)) == Lengths(ds)
      invariant |code| + Sizes(Walk(dec, buffer, cursor, size)) == Sizes(ds)
      invariant var rest := Layout(dec, buffer, cursor, size, orig + cursor, relo + |code|, near, k);
        ItemsOk(rest) && Code(all) == code + Code(rest) && Patches(all) == patches + Patches(rest)
      decreases size - cursor
    {
      LayoutStep(dec, buffer, cursor, size, orig + cursor, relo + |code|, near, k);
      var bs := buffer[cursor..];
      var d := dec(bs);
      if IsLoop(d) {
        return false, [], [], 0;
      }
      var piece, patch := GenRelocateSingle(d, bs, orig + cursor, relo + |code|, near, k);
      code, patches := code + piece, patches + patch;
      cursor, k := cursor + d.length, k + 1;
    }
    LayoutEnd(dec, buffer, cursor, size, orig + cursor, relo + |code|, near, k);
    assert code + [] == code && patches + [] == patches;
    return true, code, patches, orig + cursor;
  }

  /** GenRelocateSingleX86Insn with its call to the near allocator. */
  method GenRelocateSingle(d: Decoded, bs: seq<Byte>, orig: nat, relo: nat, near: NearAllocator, k: nat)
      returns (code: seq<Byte>, patch: seq<(nat, seq<Byte>)>)
    requires Sane(d, |bs|) && relo + 14 < TWO64 && !IsLoop(d)
    ensures var i := Placement(d, bs, orig, relo, near, k);
      && ItemOk(i) && code == CodeOf(i)
      && patch == PatchOf(i)
  {
    hide Le32, Le64, SideSequence;
    var next := U64(orig + d.length);
    code, patch := [], [];
    if 0x70 <= d.primary <= 0x7F {
      var target := U64(next + Sext8(d.immediate));
      code := [d.primary, 2];
      code := code + [0xEB, 14];
      code := code + AbsoluteJump(target);
    } else if d.ripRelative {
      code, patch := GenRelocateRip(d, bs, orig, relo, near, k);
    } else if d.primary == 0xEB {
      code := AbsoluteJump(U64(next + Sext8(d.immediate)));
    } else if d.primary == 0xE8 || d.primary == 0xE9 {
      var target := U64(next + Sext32(d.immediate));
      if d.primary == 0xE8 {
        code := [0xFF, 0x15] + Le32(2) + [0xEB, 8] + Le64(target);
      } else {
        code := [0xFF, 0x25] + Le32(0) + Le64(target);
      }
    } else {
      code := bs[..d.length];
    }
  }

  lemma LayoutEnd(dec: Decoder, buffer: seq<Byte>, c: nat, size: nat, orig: nat, relo: nat, near: NearAllocator, k: nat)
    requires c >= size
    ensures Walkable(dec, buffer, c, size)
    ensures var ds, items := Walk(dec, buffer, c, size), Layout(dec, buffer, c, size, orig, relo, near, k);
      ds == [] && Lengths(ds) == 0 && Sizes(ds) == 0 && Supported(ds)
      && items == [] && ItemsOk(items) && Code(items) == [] && Patches(items) == []
  {
  }

  /** The RIP-relative case: a jump to a side sequence within reach of the operand. */
  method GenRelocateRip(d: Decoded, bs: seq<Byte>, orig: nat, relo: nat, near: NearAllocator, k: nat)
      returns (code: seq<Byte>, patch: seq<(nat, seq<Byte>)>)
    requires Sane(d, |bs|) && relo + 14 < TWO64 && ShapeOf(d) == RipRelative
    ensures var i := Placement(d, bs, orig, relo, near, k); ItemOk(i) && code == CodeOf(i) && patch == PatchOf(i)
  {
    hide Le32, AbsoluteJump;
    var next := U64(orig + d.length);
    var target := U64(next + d.disp);
    var seqAddr := near(k, d.length + 14, target);
    code := AbsoluteJump(seqAddr);
    var side := bs[..d.dispOffset] + Le32((target - (seqAddr + d.length)) % TWO32);
    side := side + if d.immOffset != 0 then bs[d.immOffset..d.length] else [];
    side := side + AbsoluteJump(relo + |code|);
    patch := [(seqAddr, side)];
  }

  ghost predicate StepSplits(items: seq<Item>, rest: seq<Item>)
    requires items != [] && ItemsOk(items) && ItemsOk(rest)
  {
    Code(items) == CodeOf(items[0]) + Code(rest) && Patches(items) == PatchOf(items[0]) + Patches(rest)
  }

  lemma {:induction false} LayoutStep(dec: Decoder, buffer: seq<Byte>, c: nat, size: nat, orig: nat, relo: nat, near: NearAllocator, k: nat)
    requires Walkable(dec, buffer, c, size) && c < size
    ensures c < |buffer|
    ensures var d := dec(buffer[c..]);
      && Sane(d, |buffer[c..]|) && Walkable(dec, buffer, c + d.length, size)
      && (Supported(Walk(dec, buffer, c, size)) <==> !IsLoop(d) && Supported(Walk(dec, buffer, c + d.length, size)))
      && Lengths(Walk(dec, buffer, c, size)) == d.length + Lengths(Walk(dec, buffer, c + d.length, size))
      && Sizes(Walk(dec, buffer, c, size)) == EmitSize(d) + Sizes(Walk(dec, buffer, c + d.length, size))
      && Layout(dec, buffer, c, size, orig, relo, near, k)
         == [Placement(d, buffer[c..], orig, relo, near, k)] + Layout(dec, buffer, c + d.length, size, orig + d.length, relo + EmitSize(d), near, k + 1)
    ensures var items := Layout(dec, buffer, c, size, orig, relo, near, k);
      var rest := Layout(dec, buffer, c + dec(buffer[c..]).length, size, orig + dec(buffer[c..]).length, relo + EmitSize(dec(buffer[c..])), near, k + 1);
      ItemsOk(items) ==> ItemsOk(rest) && ItemOk(items[0]) && StepSplits(items, rest)
  {
    hide EmitSize, ShapeOf, IsLoop, PatchOf, CodeOf, Placement;
    var d := dec(buffer[c..]);
    var ds, tail := Walk(dec, buffer, c, size), Walk(dec, buffer, c + d.length, size);
    assert ds == [d] + tail && ds[1..] == tail && ds[0] == d;
    assert forall x :: x in ds <==> x == d || x in tail;
    var items := Layout(dec, buffer, c, size, orig, relo, near, k);
    var rest := Layout(dec, buffer, c + d.length, size, orig + d.length, relo + EmitSize(d), near, k + 1);
    assert items[1..] == rest;
    if ItemsOk(items) {
      forall j | 0 <= j < |rest| ensures ItemOk(rest[j]) {
        assert rest[j] == items[j + 1];
      }
    }
  }

  // ----- the retry loop -----

  lemma {:induction false} RetryLaysOutSame(dec: Decoder, buffer: seq<Byte>, c: nat, size: nat, orig: nat, relo: nat, near: NearAllocator, k: nat)
    requires Walkable(dec, buffer, c, size)
    ensures var n := c + Lengths(Walk(dec, buffer, c, size));
      Walkable(dec, buffer, c, n) && Layout(dec, buffer, c, n, orig, relo, near, k) == Layout(dec, buffer, c, size, orig, relo, near, k)
    decreases size - c
  {
    if c < size {
      var d := dec(buffer[c..]);
      assert Walk(dec, buffer, c, size)[1..] == Walk(dec, buffer, c + d.length, size);
      RetryLaysOutSame(dec, buffer, c + d.length, size, orig + d.length, relo + EmitSize(d), near, k + 1);
    }
  }

  /** The memory that the executable allocator gives on each attempt, 0 for none. */
  type ExecAllocator = (nat, nat) -> nat

  /** GenRelocateCodeX86Shared: 32 bytes, then 16 more on every attempt. It ends, because what a
      pass emits is as long wherever it goes and whatever it resets origin to. */
  method GenRelocateCodeShared(dec: Decoder, buffer: seq<Byte>, origin: CodeMemBlock, relocated: CodeMemBlock, branch: bool,
      exec: ExecAllocator, near: nat -> NearAllocator) returns (r: Option<Pass>, ghost attempt: nat)
    requires origin != relocated && Walkable(dec, buffer, 0, origin.size)
    requires var ds := Walk(dec, buffer, 0, origin.size);
      && origin.addr + Lengths(ds) < TWO64 && relocated.addr + ImageSize(ds, true) < TWO64
      && forall n: nat, size: nat :: exec(n, size) + ImageSize(ds, true) < TWO64
    modifies origin, relocated
    ensures r.Some? ==> r.value.Done? || r.value.Aborted?
    ensures r.Some? ==>
      (r.value.Aborted? <==> exists d :: d in Walk(dec, buffer, 0, old(origin.size)) && 0xE0 <= d.primary <= 0xE3 && !d.ripRelative)
    ensures r.Some? && r.value.Done? ==>
      var ds := Walk(dec, buffer, 0, old(origin.size));
      && origin.addr == old(origin.addr) && origin.size == Lengths(ds) && relocated.size == ImageSize(ds, branch)
      && Walkable(dec, buffer, 0, origin.size) && relocated.addr != 0
      && var items := Layout(dec, buffer, 0, origin.size, origin.addr, relocated.addr, near(attempt), 0);
      && ItemsOk(items) && origin.addr + origin.size < TWO64
      && r.value.code == Image(items, branch, origin.addr + origin.size) && r.value.patches == Patches(items)
  {
    hide Walk, Layout, Lengths, Sizes, MeetsLoop, Walkable, Code, Patches, ItemsOk;
    ghost var ds := Walk(dec, buffer, 0, origin.size);
    LoopMet(ds);
    var expected, tries := 32, 0;
    RetrySelectsSame(dec, buffer, 0, origin.size);
    while true
      invariant origin.addr == old(origin.addr) && Walkable(dec, buffer, 0, origin.size) && Walk(dec, buffer, 0, origin.size) == ds
      invariant origin.size == old(origin.size) || origin.size == Lengths(ds)
      invariant relocated.addr + ImageSize(ds, true) < TWO64
      decreases if relocated.addr != 0 then 1 else 0, if ImageSize(ds, branch) > expected then ImageSize(ds, branch) - expected else 0
    {
      if relocated.addr == 0 {
        var mem := exec(tries, expected);
        if mem == 0 {
          return None, tries;
        }
        relocated.Reset(mem, expected);
      }
      ghost var size := origin.size;
      var pass := GenRelocateCodeFixed(dec, buffer, origin, relocated, branch, near(tries));
      if !pass.TooSmall? {
        RetryLaysOutSame(dec, buffer, 0, size, origin.addr, relocated.addr, near(tries), 0);
        return Some(pass), tries;
      }
      expected, tries := expected + 16, tries + 1;
      relocated.Reset(0, 0);
    }
  }
}
