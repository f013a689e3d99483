/** Running a relocated x64 block beside the original. */
module X64Correctness {
  import opened X64Machine
  import opened X64Relocator
  import opened X64Blocks
  import Arenas = MemoryArenas

  /** The items lie one behind the other, in the original and in the relocated code. */
  ghost predicate Chained(items: seq<Item>, orig: nat, relo: nat) {
    items != [] ==>
      && items[0].orig == orig && items[0].relo == relo
      && Chained(items[1..], orig + items[0].d.length, relo + EmitSize(items[0].d))
  }

  /** A side sequence is within reach of the operand of its instruction. */
  ghost predicate InReach(i: Item) {
    ShapeOf(i.d) == RipRelative ==>
      && i.seqAddr + i.d.length + 14 <= TWO64
      && -0x8000_0000 <= Target(i.d, Next(i)) - (i.seqAddr + i.d.length) <= 0x7FFF_FFFF
  }

  const NEAR_RANGE := 0x8000_0000

  /** The near allocator gave memory for the side sequence of i within the range, as
      MemoryAllocator.AllocateNearBlock promises when it gives any. */
  ghost predicate GivenNear(i: Item) {
    ShapeOf(i.d) == RipRelative ==>
      && i.seqAddr + i.d.length + 14 <= TWO64
      && Arenas.Near(Arenas.Block(i.seqAddr, i.d.length + 14), Target(i.d, Next(i)), NEAR_RANGE)
  }

  /** The displacement in the side sequence never overflows then. */
  lemma {:induction false} PlacementInReach(i: Item)
    requires GivenNear(i) && 0 < i.d.length
    ensures InReach(i)
  {
    if ShapeOf(i.d) == RipRelative {
      Arenas.Rel32Fits(Arenas.Block(i.seqAddr, i.d.length + 14), i.d.length, Target(i.d, Next(i)));
    }
  }

  lemma {:induction false} LayoutChained(dec: Decoder, buffer: seq<Byte>, c: nat, size: nat, orig: nat, relo: nat, near: NearAllocator, k: nat)
    requires Walkable(dec, buffer, c, size)
    ensures var items := Layout(dec, buffer, c, size, orig, relo, near, k);
      Chained(items, orig, relo) && forall j :: 0 <= j < |items| ==> items[j].d.length > 0
    decreases size - c
  {
    hide EmitSize, ShapeOf, Target, Sane;
    if c < size {
      var bs := buffer[c..];
      var d := dec(bs);
      assert 0 < d.length <= 15 by { assert Sane(d, |buffer| - c); SaneLength(d, |buffer| - c); }
      var items := Layout(dec, buffer, c, size, orig, relo, near, k);
      var rest := Layout(dec, buffer, c + d.length, size, orig + d.length, relo + EmitSize(d), near, k + 1);
      LayoutChained(dec, buffer, c + d.length, size, orig + d.length, relo + EmitSize(d), near, k + 1);
      assert items == [Placement(d, bs, orig, relo, near, k)] + rest && items[1..] == rest;
      forall j | 0 <= j < |items| ensures items[j].d.length > 0 {
        if j > 0 {
          assert items[j] == rest[j - 1];
        }
      }
    }
  }

  lemma SaneLength(d: Decoded, n: nat)
    requires Sane(d, n)
    ensures 0 < d.length <= 15
  {
  }

  ghost predicate PatchesHeld(m: Mem, patches: seq<(nat, seq<Byte>)>) {
    forall j :: 0 <= j < |patches| ==> Holds(m, patches[j].0, patches[j].1)
  }

  /** All relocated code is in memory: every item is placed. */
  lemma {:induction false} AllPlaced(m: Mem, items: seq<Item>, orig: nat, relo: nat, k: nat)
    requires ItemsOk(items) && Chained(items, orig, relo) && (forall j :: 0 <= j < |items| ==> InReach(items[j]))
    requires Holds(m, relo, Code(items)) && PatchesHeld(m, Patches(items)) && relo + |Code(items)| < TWO64 && k < |items|
    ensures var i := items[k]; Placed(m, i.d, i.bs, Next(i), i.relo, i.seqAddr)
    decreases |items|
  {
    hide Emit, SideSequence, EmitSize, Holds, Target, ShapeOf;
    var i, rest := items[0], items[1..];
    assert ItemsOk(rest) by { forall j | 0 <= j < |rest| ensures ItemOk(rest[j]) { assert rest[j] == items[j + 1]; } }
    HoldsSplit(m, relo, CodeOf(i), Code(rest));
    var p, q := PatchOf(i), Patches(rest);
    assert Patches(items) == p + q;
    if k == 0 {
      forall j | 0 <= j < |p| ensures Holds(m, p[j].0, p[j].1) {
        assert (p + q)[j] == p[j];
      }
      assert |p| == 1 ==> Holds(m, p[0].0, p[0].1);
      assert InReach(i);
    } else {
      forall j | 0 <= j < |q| ensures Holds(m, q[j].0, q[j].1) {
        assert (p + q)[|p| + j] == q[j];
      }
      forall j | 0 <= j < |rest| ensures InReach(rest[j]) {
        assert rest[j] == items[j + 1];
      }
      AllPlaced(m, rest, orig + i.d.length, relo + EmitSize(i.d), k - 1);
      assert rest[k - 1] == items[k];
    }
  }

  // ----- the two runs -----

  /** The original instruction is one that the relocator handles, and a pointer that it jumps or
      calls through is the same in the original and in the present memory. */
  ghost predicate Handled(cpu: Cpu, m0: Mem, m: Mem, it: Item) {
    var i, n := cpu.decode(m0, it.orig).0, cpu.decode(m0, it.orig).1;
    && Original(cpu, m0, it.orig, it.d, it.bs, i, n)
    && (i.Rip? && !i.use.Operate? ==> Read64(m, U64(Next(it) + i.disp)) == Read64(m0, U64(Next(it) + i.disp)))
  }

  /** How the block is left: at its end, by a jump, or by the call that is instruction k. */
  datatype Exit = End(data: Data) | Jumped(target: nat, data: Data) | Called(k: nat, target: nat, data: Data)

  /** The block from instruction k on, in terms of what its instructions do. */
  function Leaves(cpu: Cpu, m0: Mem, m: Mem, items: seq<Item>, k: nat, x: Data): Exit
    requires k <= |items|
    decreases |items| - k
  {
    if k == |items| then End(x)
    else
      var (flow, x') := Effect(cpu, m, cpu.decode(m0, items[k].orig).0, Next(items[k]), x);
      match flow
      case Fall => Leaves(cpu, m0, m, items, k + 1, x')
      case Goto(t) => Jumped(t, x')
      case CallTo(t) => Called(k, t, x')
  }

  /** The state of the original at the exit. */
  function OriginalAt(cpu: Cpu, items: seq<Item>, end_: nat, e: Exit): State
    requires e.Called? ==> e.k < |items|
  {
    match e
    case End(x) => State(end_, x)
    case Jumped(t, x) => State(t, x)
    case Called(k, t, x) => State(t, cpu.push(x, Next(items[k])))
  }

  /** The state of the relocated code at the exit. */
  function RelocatedAt(cpu: Cpu, items: seq<Item>, end_: nat, e: Exit): State
    requires e.Called? ==> e.k < |items|
  {
    match e
    case End(x) => State(end_, x)
    case Jumped(t, x) => State(t, x)
    case Called(k, t, x) => State(t, cpu.push(x, ReturnPoint(items[k].d, items[k].relo, items[k].seqAddr)))
  }

  lemma {:induction false} LeavesInside(cpu: Cpu, m0: Mem, m: Mem, items: seq<Item>, k: nat, x: Data)
    requires k <= |items|
    ensures var e := Leaves(cpu, m0, m, items, k, x); e.Called? ==> k <= e.k < |items|
    decreases |items| - k
  {
    if k < |items| {
      var (flow, x') := Effect(cpu, m, cpu.decode(m0, items[k].orig).0, Next(items[k]), x);
      LeavesInside(cpu, m0, m, items, k + 1, x');
    }
  }

  /** Where item k starts, or the end for k == |items|. */
  function OrigAt(items: seq<Item>, end_: nat, k: nat): nat
    requires k <= |items|
  {
    if k < |items| then items[k].orig else end_
  }

  function ReloAt(items: seq<Item>, end_: nat, k: nat): nat
    requires k <= |items|
  {
    if k < |items| then items[k].relo else end_
  }

  /** Each item's successors are the next item. */
  ghost predicate Linked(items: seq<Item>, origEnd: nat, reloEnd: nat) {
    forall k :: 0 <= k < |items| ==>
      OrigAt(items, origEnd, k + 1) == Next(items[k]) && ReloAt(items, reloEnd, k + 1) == items[k].relo + EmitSize(items[k].d)
  }

  /** The original really does this. */
  lemma {:induction false} OriginalRuns(cpu: Cpu, m0: Mem, m: Mem, items: seq<Item>, origEnd: nat, reloEnd: nat, k: nat, x: Data) returns (n: nat)
    requires k <= |items| && Linked(items, origEnd, reloEnd) && forall j :: 0 <= j < |items| ==> Handled(cpu, m0, m, items[j])
    ensures var e := Leaves(cpu, m0, m, items, k, x);
      (e.Called? ==> e.k < |items|) && Steps(cpu, m0, State(OrigAt(items, origEnd, k), x), n) == OriginalAt(cpu, items, origEnd, e)
    decreases |items| - k
  {
    LeavesInside(cpu, m0, m, items, k, x);
    if k == |items| {
      n := 0;
    } else {
      var it := items[k];
      var i := cpu.decode(m0, it.orig).0;
      var (flow, x') := Effect(cpu, m, i, Next(it), x);
      assert Handled(cpu, m0, m, it);
      OriginalStep(cpu, m0, m, it, x);
      var s := State(it.orig, x);
      if flow == Fall {
        var n' := OriginalRuns(cpu, m0, m, items, origEnd, reloEnd, k + 1, x');
        n := n' + 1;
        assert OrigAt(items, origEnd, k + 1) == Next(it);
        assert Steps(cpu, m0, s, n) == Steps(cpu, m0, Step(cpu, m0, s), n');
      } else {
        n := 1;
        OneStep(cpu, m0, s);
      }
    }
  }

  lemma {:induction false} OriginalStep(cpu: Cpu, m0: Mem, m: Mem, it: Item, x: Data)
    requires Handled(cpu, m0, m, it)
    ensures var (flow, x') := Effect(cpu, m, cpu.decode(m0, it.orig).0, Next(it), x);
      Step(cpu, m0, State(it.orig, x)) == match flow
        case Fall => State(Next(it), x')
        case Goto(t) => State(t, x')
        case CallTo(t) => State(t, cpu.push(x', Next(it)))
  {
    hide Read64, Holds, Read32;
  }

  /** From start the relocated code comes to the exit e in n steps, and a call returns to where the
      relocated next item starts. */
  ghost predicate Arrives(cpu: Cpu, m: Mem, items: seq<Item>, reloEnd: nat, e: Exit, start: State, n: nat) {
    && (e.Called? ==> e.k < |items|)
    && Steps(cpu, m, start, n) == RelocatedAt(cpu, items, reloEnd, e)
    && (e.Called? ==> LeadsTo(cpu, m, ReturnPoint(items[e.k].d, items[e.k].relo, items[e.k].seqAddr), ReloAt(items, reloEnd, e.k + 1)))
  }

  lemma ArrivesLater(cpu: Cpu, m: Mem, items: seq<Item>, reloEnd: nat, e: Exit, start: State, c: nat, n: nat)
    requires Arrives(cpu, m, items, reloEnd, e, Steps(cpu, m, start, c), n)
    ensures Arrives(cpu, m, items, reloEnd, e, start, c + n)
  {
    hide Steps, RelocatedAt, LeadsTo, ReturnPoint, ReloAt;
    StepsAdd(cpu, m, start, c, n);
  }

  /** And the relocated code does it too. */
  lemma {:induction false} RelocatedRuns(cpu: Cpu, m0: Mem, m: Mem, items: seq<Item>, origEnd: nat, reloEnd: nat, k: nat, x: Data) returns (n: nat)
    requires ProperCpu(cpu) && k <= |items| && Linked(items, origEnd, reloEnd)
    requires forall j :: 0 <= j < |items| ==> Handled(cpu, m0, m, items[j])
    requires forall j :: 0 <= j < |items| ==> Placed(m, items[j].d, items[j].bs, Next(items[j]), items[j].relo, items[j].seqAddr)
    ensures Arrives(cpu, m, items, reloEnd, Leaves(cpu, m0, m, items, k, x), State(ReloAt(items, reloEnd, k), x), n)
    decreases |items| - k
  {
    hide ProperCpu, Placed, Handled, Effect, Steps, Step, ReturnPoint, EmitSize, LeadsTo;
    if k == |items| {
      n := 0;
      NoSteps(cpu, m, State(reloEnd, x));
    } else {
      var it := items[k];
      var (flow, x') := Effect(cpu, m, cpu.decode(m0, it.orig).0, Next(it), x);
      ItemFollows(cpu, m0, m, it, x);
      n := StepsFor(it.d, flow);
      hide StepsFor;
      assert ReloAt(items, reloEnd, k) == it.relo && ReloAt(items, reloEnd, k + 1) == it.relo + EmitSize(it.d);
      if flow == Fall {
        var n' := RelocatedRuns(cpu, m0, m, items, origEnd, reloEnd, k + 1, x');
        hide Arrives, ReloAt, Linked;
        ArrivesLater(cpu, m, items, reloEnd, Leaves(cpu, m0, m, items, k + 1, x'), State(it.relo, x), n, n');
        n := n + n';
      }
    }
  }

  lemma NoSteps(cpu: Cpu, m: Mem, s: State)
    ensures Steps(cpu, m, s, 0) == s
  {
  }

  lemma {:induction false} ItemFollows(cpu: Cpu, m0: Mem, m: Mem, it: Item, x: Data)
    requires ProperCpu(cpu) && Handled(cpu, m0, m, it) && Placed(m, it.d, it.bs, Next(it), it.relo, it.seqAddr)
    ensures var (flow, x') := Effect(cpu, m, cpu.decode(m0, it.orig).0, Next(it), x);
      Follows(cpu, m, it.d, it.relo, it.seqAddr, x, flow, x')
  {
    var i, n := cpu.decode(m0, it.orig).0, cpu.decode(m0, it.orig).1;
    hide ProperCpu, Placed, Original, Effect, Follows;
    InsnFollows(cpu, m0, it.orig, m, it.d, it.bs, i, n, Next(it), it.relo, it.seqAddr, x);
  }

  lemma {:induction false} ChainedLinked(items: seq<Item>, orig: nat, relo: nat, origEnd: nat, reloEnd: nat)
    requires ItemsOk(items) && Chained(items, orig, relo) && origEnd < TWO64
    requires origEnd == orig + LengthsOf(items) && reloEnd == relo + |Code(items)|
    ensures Linked(items, origEnd, reloEnd) && OrigAt(items, origEnd, 0) == orig && ReloAt(items, reloEnd, 0) == relo
    decreases |items|
  {
    hide EmitSize, CodeOf, ItemOk, Linked;
    if items == [] {
      assert Linked(items, origEnd, reloEnd) by { NoneLinked(items, origEnd, reloEnd); }
    } else {
      var i, rest := items[0], items[1..];
      assert ItemsOk(rest) by { forall j | 0 <= j < |rest| ensures ItemOk(rest[j]) { assert rest[j] == items[j + 1]; } }
      ChainedLinked(rest, orig + i.d.length, relo + EmitSize(i.d), origEnd, reloEnd);
      LinkFirst(items, origEnd, reloEnd);
    }
  }

  lemma NoneLinked(items: seq<Item>, origEnd: nat, reloEnd: nat)
    requires items == []
    ensures Linked(items, origEnd, reloEnd)
  {
  }

  lemma {:induction false} LinkFirst(items: seq<Item>, origEnd: nat, reloEnd: nat)
    requires items != [] && Linked(items[1..], origEnd, reloEnd)
    requires OrigAt(items[1..], origEnd, 0) == Next(items[0])
    requires ReloAt(items[1..], reloEnd, 0) == items[0].relo + EmitSize(items[0].d)
    ensures Linked(items, origEnd, reloEnd)
  {
    hide EmitSize;
    var rest := items[1..];
    forall k | 0 <= k < |items|
      ensures OrigAt(items, origEnd, k + 1) == Next(items[k]) && ReloAt(items, reloEnd, k + 1) == items[k].relo + EmitSize(items[k].d)
    {
      assert OrigAt(items, origEnd, k + 1) == OrigAt(rest, origEnd, k) && ReloAt(items, reloEnd, k + 1) == ReloAt(rest, reloEnd, k);
      if k > 0 {
        assert items[k] == rest[k - 1];
      }
    }
  }

  function LengthsOf(items: seq<Item>): nat { if items == [] then 0 else items[0].d.length + LengthsOf(items[1..]) }

  /** Simulation: with the relocated image and its side sequences in memory, the relocated block
      started on the same data leaves as the original does: at the same jump target or call target
      with the same data but for the return address, which leads behind the relocated call; and
      from the end of the block, by the appended jump, to the end of the original. */
  lemma {:induction false} BlockSimulated(cpu: Cpu, m0: Mem, m: Mem, items: seq<Item>, orig: nat, relo: nat, x: Data)
      returns (n0: nat, n: nat)
    requires ProperCpu(cpu) && ItemsOk(items) && Chained(items, orig, relo) && (forall j :: 0 <= j < |items| ==> InReach(items[j]))
    requires orig + LengthsOf(items) < TWO64 && relo + |Code(items)| + 14 < TWO64
    requires Holds(m, relo, Image(items, true, orig + LengthsOf(items))) && PatchesHeld(m, Patches(items))
    requires forall j :: 0 <= j < |items| ==> Handled(cpu, m0, m, items[j])
    ensures var origEnd, reloEnd := orig + LengthsOf(items), relo + |Code(items)|;
      var e := Leaves(cpu, m0, m, items, 0, x);
      && (e.Called? ==> e.k < |items|)
      && Steps(cpu, m0, State(orig, x), n0) == OriginalAt(cpu, items, origEnd, e)
      && Steps(cpu, m, State(relo, x), n) == RelocatedAt(cpu, items, if e.End? then origEnd else reloEnd, e)
      && (!e.Called? ==> Steps(cpu, m, State(relo, x), n) == Steps(cpu, m0, State(orig, x), n0))
      && (e.Called? ==> LeadsTo(cpu, m, ReturnPoint(items[e.k].d, items[e.k].relo, items[e.k].seqAddr), ReloAt(items, reloEnd, e.k + 1)))
      && LeadsTo(cpu, m, reloEnd, origEnd)
  {
    hide ProperCpu, Holds, Handled, Placed, Steps, AbsoluteJump, Code, Patches, Leaves, LeadsTo, Chained, InReach, LengthsOf, Linked;
    var origEnd, reloEnd := orig + LengthsOf(items), relo + |Code(items)|;
    HoldsSplit(m, relo, Code(items), AbsoluteJump(origEnd));
    JumpLeads(cpu, m, reloEnd, origEnd);
    ChainedLinked(items, orig, relo, origEnd, reloEnd);
    forall j | 0 <= j < |items| ensures Placed(m, items[j].d, items[j].bs, Next(items[j]), items[j].relo, items[j].seqAddr) {
      AllPlaced(m, items, orig, relo, j);
    }
    n0 := OriginalRuns(cpu, m0, m, items, origEnd, reloEnd, 0, x);
    n := RelocatedRuns(cpu, m0, m, items, origEnd, reloEnd, 0, x);
    var e := Leaves(cpu, m0, m, items, 0, x);
    if e.End? {
      StepsAdd(cpu, m, State(relo, x), n, 1);
      OneStep(cpu, m, State(reloEnd, e.data));
      AbsoluteJumpRuns(cpu, m, reloEnd, origEnd, e.data);
      n := n + 1;
    }
  }

  lemma {:induction false} LayoutLengths(dec: Decoder, buffer: seq<Byte>, c: nat, size: nat, orig: nat, relo: nat, near: NearAllocator, k: nat)
    requires Walkable(dec, buffer, c, size)
    ensures LengthsOf(Layout(dec, buffer, c, size, orig, relo, near, k)) == Lengths(Walk(dec, buffer, c, size))
    decreases size - c
  {
    hide EmitSize, Placement;
    if c < size {
      var d := dec(buffer[c..]);
      LayoutLengths(dec, buffer, c + d.length, size, orig + d.length, relo + EmitSize(d), near, k + 1);
      var items := Layout(dec, buffer, c, size, orig, relo, near, k);
      assert items[1..] == Layout(dec, buffer, c + d.length, size, orig + d.length, relo + EmitSize(d), near, k + 1);
      assert items[0].d == d by { PlacementReport(d, buffer[c..], orig, relo, near, k); }
      assert Walk(dec, buffer, c, size)[1..] == Walk(dec, buffer, c + d.length, size);
    }
  }

  lemma PlacementReport(d: Decoded, bs: seq<Byte>, orig: nat, relo: nat, near: NearAllocator, k: nat)
    ensures Placement(d, bs, orig, relo, near, k).d == d
  {
  }

  /** The items have the reports of the instructions visited. */
  lemma {:induction false} LayoutReports(dec: Decoder, buffer: seq<Byte>, c: nat, size: nat, orig: nat, relo: nat, near: NearAllocator, k: nat)
    requires Walkable(dec, buffer, c, size)
    ensures var ds, items := Walk(dec, buffer, c, size), Layout(dec, buffer, c, size, orig, relo, near, k);
      |items| == |ds| && forall j :: 0 <= j < |ds| ==> items[j].d == ds[j]
    decreases size - c
  {
    hide EmitSize, ShapeOf, Target, Sane;
    if c < size {
      var d := dec(buffer[c..]);
      assert d.length > 0 by { assert Sane(d, |buffer| - c); SaneLength(d, |buffer| - c); }
      LayoutReports(dec, buffer, c + d.length, size, orig + d.length, relo + EmitSize(d), near, k + 1);
    }
  }

  /** A block of handled instructions is never given up: GenRelocateCodeShared ends with its code,
      unless there is no executable memory. */
  lemma {:induction false} HandledNeverAborts(cpu: Cpu, m0: Mem, m: Mem, dec: Decoder, buffer: seq<Byte>, size: nat,
      orig: nat, relo: nat, near: NearAllocator)
    requires Walkable(dec, buffer, 0, size)
    requires var items := Layout(dec, buffer, 0, size, orig, relo, near, 0);
      forall j :: 0 <= j < |items| ==> Handled(cpu, m0, m, items[j])
    ensures !exists d :: d in Walk(dec, buffer, 0, size) && 0xE0 <= d.primary <= 0xE3 && !d.ripRelative
  {
    hide Walk, Layout, Walkable, Handled;
    LayoutReports(dec, buffer, 0, size, orig, relo, near, 0);
    var ds, items := Walk(dec, buffer, 0, size), Layout(dec, buffer, 0, size, orig, relo, near, 0);
    forall d | d in ds ensures !(0xE0 <= d.primary <= 0xE3 && !d.ripRelative) {
      var j :| 0 <= j < |ds| && ds[j] == d;
      HandledOpcode(cpu, m0, m, items[j]);
    }
  }

  lemma {:induction false} HandledOpcode(cpu: Cpu, m0: Mem, m: Mem, it: Item)
    requires Handled(cpu, m0, m, it)
    ensures !(0xE0 <= it.d.primary <= 0xE3 && !it.d.ripRelative)
  {
  }

  /** What GenRelocateCodeShared delivers with `branch` for the block at orig is in memory, its side
      sequences lie near the operands, and the block consists of handled instructions. */
  ghost predicate Installed(cpu: Cpu, m0: Mem, m: Mem, dec: Decoder, buffer: seq<Byte>, orig: nat, size: nat, relo: nat, near: NearAllocator) {
    && Walkable(dec, buffer, 0, size)
    && orig + Lengths(Walk(dec, buffer, 0, size)) < TWO64 && relo + Sizes(Walk(dec, buffer, 0, size)) + 14 < TWO64
    && var items := Layout(dec, buffer, 0, size, orig, relo, near, 0);
       && ItemsOk(items) && Holds(m, relo, Image(items, true, orig + Lengths(Walk(dec, buffer, 0, size)))) && PatchesHeld(m, Patches(items))
       && (forall j :: 0 <= j < |items| ==> GivenNear(items[j])) && (forall j :: 0 <= j < |items| ==> Handled(cpu, m0, m, items[j]))
  }

  /** Then the relocated block simulates the original one from any data: both runs come to the same
      exit, a call returns to where the relocated next instruction starts, and the end of the
      relocated code leads to the end of the original. */
  lemma {:induction false} RelocationSimulates(cpu: Cpu, m0: Mem, m: Mem, dec: Decoder, buffer: seq<Byte>, orig: nat, size: nat,
      relo: nat, near: NearAllocator, x: Data) returns (n0: nat, n: nat)
    requires ProperCpu(cpu) && Installed(cpu, m0, m, dec, buffer, orig, size, relo, near)
    ensures var items := Layout(dec, buffer, 0, size, orig, relo, near, 0);
      var origEnd, reloEnd := orig + Lengths(Walk(dec, buffer, 0, size)), relo + Sizes(Walk(dec, buffer, 0, size));
      var e := Leaves(cpu, m0, m, items, 0, x);
      && (e.Called? ==> e.k < |items|)
      && Steps(cpu, m0, State(orig, x), n0) == OriginalAt(cpu, items, origEnd, e)
      && Steps(cpu, m, State(relo, x), n) == RelocatedAt(cpu, items, if e.End? then origEnd else reloEnd, e)
      && (!e.Called? ==> Steps(cpu, m, State(relo, x), n) == Steps(cpu, m0, State(orig, x), n0))
      && (e.Called? ==> LeadsTo(cpu, m, ReturnPoint(items[e.k].d, items[e.k].relo, items[e.k].seqAddr), ReloAt(items, reloEnd, e.k + 1)))
      && LeadsTo(cpu, m, reloEnd, origEnd)
  {
    hide ProperCpu, Holds, Handled, Steps, Code, Patches, Leaves, LeadsTo, Chained, InReach, GivenNear, LengthsOf, Layout, Walk, Lengths, Sizes, Walkable,
      ItemsOk, OriginalAt, RelocatedAt, ReturnPoint, AbsoluteJump;
    var items := Layout(dec, buffer, 0, size, orig, relo, near, 0);
    LayoutOk(dec, buffer, 0, size, orig, relo, near, 0);
    LayoutChained(dec, buffer, 0, size, orig, relo, near, 0);
    LayoutLengths(dec, buffer, 0, size, orig, relo, near, 0);
    forall j | 0 <= j < |items| ensures InReach(items[j]) {
      PlacementInReach(items[j]);
    }
    n0, n := BlockSimulated(cpu, m0, m, items, orig, relo, x);
  }

  // ----- a block that all of this applies to -----

  const ORIG := 0x1_0000
  const RELO := 0x2_0000
  const SIDE := 0x3_0000
  const CELL := 0x4_0000

  /** jo +16, then call [rip + 0x2FFF8]. */
  const BLOCK: seq<Byte> := [0x70, 0x10, 0xFF, 0x15, 0xF8, 0xFF, 0x02, 0x00]

  const JO := Decoded(2, 0x70, false, 0, 0, 0x10, 1)
  const CALL_CELL := Decoded(6, 0xFF, true, 0x2_FFF8, 2, 0, 0)

  function BlockDecoder(): Decoder { (bs: seq<Byte>) => if |bs| > 0 && bs[0] == 0x70 then JO else CALL_CELL }
  function SideOnly(): NearAllocator { (k, size, dst) => SIDE }

  function BlockItems(): seq<Item> { [Item(JO, BLOCK, ORIG, RELO, 0), Item(CALL_CELL, BLOCK[2..], ORIG + 2, RELO + 18, SIDE)] }

  /** Memory that holds the given pieces, the first one on top. */
  function At(pieces: seq<(nat, seq<Byte>)>, a: nat): Byte {
    if pieces == [] then 0
    else if pieces[0].0 <= a < pieces[0].0 + |pieces[0].1| then pieces[0].1[a - pieces[0].0]
    else At(pieces[1..], a)
  }

  function Holding(pieces: seq<(nat, seq<Byte>)>): Mem { Mem(a => At(pieces, a)) }

  lemma {:induction false} HoldsPiece(pieces: seq<(nat, seq<Byte>)>, k: nat)
    requires k < |pieces|
    requires forall j :: 0 <= j < k ==> pieces[j].0 + |pieces[j].1| <= pieces[k].0
    ensures Holds(Holding(pieces), pieces[k].0, pieces[k].1)
  {
    var a, bs := pieces[k].0, pieces[k].1;
    forall i | 0 <= i < |bs| ensures At(pieces, a + i) == bs[i] {
      PieceAt(pieces, k, i);
    }
    assert Bytes(Holding(pieces), a, |bs|) == bs;
  }

  lemma {:induction false} PieceAt(pieces: seq<(nat, seq<Byte>)>, k: nat, i: nat)
    requires k < |pieces| && i < |pieces[k].1|
    requires forall j :: 0 <= j < k ==> pieces[j].0 + |pieces[j].1| <= pieces[k].0
    ensures At(pieces, pieces[k].0 + i) == pieces[k].1[i]
    decreases k
  {
    if k > 0 {
      assert pieces[0].0 + |pieces[0].1| <= pieces[k].0;
      assert pieces[1..][k - 1] == pieces[k];
      forall j | 0 <= j < k - 1 ensures pieces[1..][j].0 + |pieces[1..][j].1| <= pieces[1..][k - 1].0 {
        assert pieces[1..][j] == pieces[j + 1];
      }
      PieceAt(pieces[1..], k - 1, i);
    }
  }

  lemma {:induction false} BlockWalked()
    ensures Walkable(BlockDecoder(), BLOCK, 0, 8) && Walk(BlockDecoder(), BLOCK, 0, 8) == [JO, CALL_CELL]
    ensures Lengths([JO, CALL_CELL]) == 8 && Sizes([JO, CALL_CELL]) == 32
  {
    var dec := BlockDecoder();
    assert dec(BLOCK[0..]) == JO && dec(BLOCK[2..]) == CALL_CELL;
    assert Walkable(dec, BLOCK, 8, 8) && Walkable(dec, BLOCK, 2, 8);
    assert Walk(dec, BLOCK, 8, 8) == [] && Walk(dec, BLOCK, 2, 8) == [CALL_CELL];
    BlockMeasured();
  }

  lemma BlockMeasured()
    ensures Lengths([JO, CALL_CELL]) == 8 && Sizes([JO, CALL_CELL]) == 32
  {
    var ds, last := [JO, CALL_CELL], [CALL_CELL];
    assert ds[1..] == last && last[1..] == [];
    assert Lengths(last) == 6 && Sizes(last) == 14;
  }

  lemma {:induction false} BlockLaidOut()
    requires Walkable(BlockDecoder(), BLOCK, 0, 8)
    ensures Layout(BlockDecoder(), BLOCK, 0, 8, ORIG, RELO, SideOnly(), 0) == BlockItems()
  {
    var dec, near := BlockDecoder(), SideOnly();
    assert BLOCK[0..] == BLOCK && dec(BLOCK) == JO && dec(BLOCK[2..]) == CALL_CELL;
    assert Layout(dec, BLOCK, 8, 8, ORIG + 8, RELO + 32, near, 2) == [];
    assert Layout(dec, BLOCK, 2, 8, ORIG + 2, RELO + 18, near, 1) == [Item(CALL_CELL, BLOCK[2..], ORIG + 2, RELO + 18, SIDE)];
  }

  /** The original, and the pointer that it calls through. */
  function Before(target: nat): Mem
    requires target < TWO64
  {
    Holding([(ORIG, BLOCK), (CELL, Le64(target))])
  }

  /** The same pointer beside the relocated code and its side sequence. */
  function After(target: nat): Mem
    requires target < TWO64 && ItemsOk(BlockItems())
  {
    Holding([(RELO, Image(BlockItems(), true, ORIG + 8)), PatchOf(BlockItems()[1])[0], (CELL, Le64(target))])
  }

  lemma {:induction false} BeforeHolds(target: nat)
    requires target < TWO64
    ensures Holds(Before(target), ORIG, BLOCK) && Holds(Before(target), CELL, Le64(target))
  {
    hide Holds, Le64;
    HoldsPiece([(ORIG, BLOCK), (CELL, Le64(target))], 0);
    HoldsPiece([(ORIG, BLOCK), (CELL, Le64(target))], 1);
  }

  lemma {:induction false} JoHandled(target: nat)
    requires target < TWO64 && ItemsOk(BlockItems())
    ensures Handled(BranchCpu(), Before(target), After(target), BlockItems()[0])
  {
    hide BranchCpu, Before, After, Read64, Le64, Holds;
    var m0 := Before(target);
    BeforeHolds(target);
    BlockBytes(m0);
    assert BLOCK == BLOCK[..2] + BLOCK[2..];
    HoldsSplit(m0, ORIG, BLOCK[..2], BLOCK[2..]);
  }

  lemma {:induction false} CallHandled(target: nat)
    requires target < TWO64 && ItemsOk(BlockItems())
    ensures Handled(BranchCpu(), Before(target), After(target), BlockItems()[1])
  {
    hide BranchCpu, Before, After, Original, Read64, Handled, Le64;
    CallOriginal(target);
    PointerSame(target);
    CallPlace();
    ThroughPointer(BranchCpu(), Before(target), After(target), BlockItems()[1], 0x2_FFF8, 6);
  }

  lemma CallPlace()
    ensures var it := BlockItems()[1]; it.d == CALL_CELL && it.bs == BLOCK[2..] && it.orig == ORIG + 2 && U64(Next(it) + 0x2_FFF8) == CELL
  {
  }

  lemma ThroughPointer(cpu: Cpu, m0: Mem, m: Mem, it: Item, disp: int, n: nat)
    requires cpu.decode(m0, it.orig) == (Rip(CallThrough, disp), n) && Original(cpu, m0, it.orig, it.d, it.bs, Rip(CallThrough, disp), n)
    requires Read64(m, U64(Next(it) + disp)) == Read64(m0, U64(Next(it) + disp))
    ensures Handled(cpu, m0, m, it)
  {
    hide Original, Read64, U64, Next;
  }

  lemma {:induction false} CallOriginal(target: nat)
    requires target < TWO64
    ensures BranchCpu().decode(Before(target), ORIG + 2) == (Rip(CallThrough, 0x2_FFF8), 6)
    ensures Original(BranchCpu(), Before(target), ORIG + 2, CALL_CELL, BLOCK[2..], Rip(CallThrough, 0x2_FFF8), 6)
  {
    hide Before, Holds, Le64, Read32;
    var m0 := Before(target);
    BeforeHolds(target);
    BlockBytes(m0);
    assert BLOCK == BLOCK[..2] + BLOCK[2..];
    HoldsSplit(m0, ORIG, BLOCK[..2], BLOCK[2..]);
    assert BLOCK[2..][..6] == BLOCK[2..];
  }

  lemma {:induction false} PointerSame(target: nat)
    requires target < TWO64 && ItemsOk(BlockItems())
    ensures Read64(After(target), CELL) == Read64(Before(target), CELL)
  {
    BeforeHolds(target);
    AfterHolds(target);
    hide *;
    Read64Back(Before(target), CELL, target);
    Read64Back(After(target), CELL, target);
  }

  lemma {:induction false} BlockBytes(m0: Mem)
    requires Holds(m0, ORIG, BLOCK)
    ensures BranchCpu().decode(m0, ORIG) == (Jcc(0, 0x10), 2)
    ensures BranchCpu().decode(m0, ORIG + 2) == (Rip(CallThrough, 0x2_FFF8), 6)
  {
    ByteAt(m0, ORIG, BLOCK, 0);
    ByteAt(m0, ORIG, BLOCK, 1);
    ByteAt(m0, ORIG, BLOCK, 2);
    ByteAt(m0, ORIG, BLOCK, 3);
    ByteAt(m0, ORIG, BLOCK, 4);
    ByteAt(m0, ORIG, BLOCK, 5);
    ByteAt(m0, ORIG, BLOCK, 6);
    ByteAt(m0, ORIG, BLOCK, 7);
    hide Holds;
    assert Read32(m0, ORIG + 4) == 0x2_FFF8;
  }

  lemma {:induction false} AfterHolds(target: nat)
    requires target < TWO64 && ItemsOk(BlockItems())
    ensures |PatchOf(BlockItems()[1])| == 1 && PatchOf(BlockItems()[1])[0].0 == SIDE
    ensures Holds(After(target), RELO, Image(BlockItems(), true, ORIG + 8))
    ensures Holds(After(target), SIDE, PatchOf(BlockItems()[1])[0].1)
    ensures Holds(After(target), CELL, Le64(target))
  {
    var image, side := Image(BlockItems(), true, ORIG + 8), PatchOf(BlockItems()[1])[0];
    BlockSizes();
    hide Image, PatchOf, Le64, Holds, Holding;
    var pieces := [(RELO, image), side, (CELL, Le64(target))];
    HoldsPiece(pieces, 0);
    HoldsPiece(pieces, 1);
    HoldsPiece(pieces, 2);
  }

  lemma BlockSizes()
    requires ItemsOk(BlockItems())
    ensures |Code(BlockItems())| == 32 && |Image(BlockItems(), true, ORIG + 8)| == 46
    ensures PatchOf(BlockItems()[0]) == []
    ensures |PatchOf(BlockItems()[1])| == 1 && PatchOf(BlockItems()[1])[0].0 == SIDE && |PatchOf(BlockItems()[1])[0].1| == 20
  {
    hide Emit, Le32, AbsoluteJump;
    var items := BlockItems();
    assert items[1..] == [items[1]] && items[1..][1..] == [];
    assert |Code(items[1..])| == 14;
  }

  lemma {:induction false} BlockHeld(target: nat)
    requires target < TWO64 && ItemsOk(BlockItems())
    ensures Holds(After(target), RELO, Image(BlockItems(), true, ORIG + 8)) && PatchesHeld(After(target), Patches(BlockItems()))
  {
    var items := BlockItems();
    BlockSizes();
    AfterHolds(target);
    hide Image, PatchOf, Holds, Holding, After, ItemOk;
    assert items[1..] == [items[1]] && items[1..][1..] == [];
    assert Patches(items[1..]) == PatchOf(items[1]);
  }

  lemma BlockNear()
    ensures forall j :: 0 <= j < |BlockItems()| ==> GivenNear(BlockItems()[j])
  {
  }

  /** The hypotheses can all hold together: for the block above, whatever it calls. */
  lemma {:induction false} RelocationApplies(target: nat)
    requires target < TWO64
    ensures ProperCpu(BranchCpu()) && ItemsOk(BlockItems())
    ensures Installed(BranchCpu(), Before(target), After(target), BlockDecoder(), BLOCK, ORIG, 8, RELO, SideOnly())
  {
    hide ProperCpu, Handled, Image, Patches, Holds, GivenNear, BranchCpu, Before, After, Layout, Walk, Walkable, ItemsOk, PatchesHeld, Sizes, Lengths,
      BlockDecoder, SideOnly;
    ProperCpusExist();
    BlockWalked();
    BlockLaidOut();
    BlockOk();
    BlockHeld(target);
    JoHandled(target);
    CallHandled(target);
    BlockNear();
  }

  lemma BlockOk()
    ensures ItemsOk(BlockItems())
  {
  }

  // ----- a shift that is misread -----

  /** psrldq xmm0, 8, and the report of it. */
  const SHIFT: seq<Byte> := [0x66, 0x0F, 0x73, 0xD8, 0x08]
  const SHIFT_REPORT := Decoded(3, 0x73, false, 0, 0, 0, 0)

  function BeforeShift(): Mem { Holding([(ORIG, SHIFT)]) }
  function AfterShift(): Mem { Holding([(RELO, Emit(SHIFT_REPORT, SHIFT, ORIG + 3, 0))]) }

  lemma ShiftHeld()
    ensures BranchCpu().decode(BeforeShift(), ORIG) == (Plain(0), 5)
    ensures Placed(AfterShift(), SHIFT_REPORT, SHIFT, ORIG + 3, RELO, 0)
  {
    HoldsPiece([(ORIG, SHIFT)], 0);
    HoldsPiece([(RELO, Emit(SHIFT_REPORT, SHIFT, ORIG + 3, 0))], 0);
    hide Emit, Holds, At;
    ByteAt(BeforeShift(), ORIG, SHIFT, 0);
    ByteAt(BeforeShift(), ORIG, SHIFT, 1);
    ByteAt(BeforeShift(), ORIG, SHIFT, 2);
  }

  /** The original does the shift and goes on behind it; the relocated code ends up at its ModRM byte
      or behind the jump, with nothing done, whatever the data. */
  lemma ShiftIsLost(x: Data)
    ensures ProperCpu(BranchCpu()) && IsShiftByCount(SHIFT_REPORT, SHIFT)
    ensures Step(BranchCpu(), BeforeShift(), State(ORIG, x)) == State(ORIG + 5, x + 1)
    ensures Placed(AfterShift(), SHIFT_REPORT, SHIFT, ORIG + 3, RELO, 0)
    ensures Steps(BranchCpu(), AfterShift(), State(RELO, x), 2) == State(if x > 3 then ORIG + 3 else RELO + 18, x)
    ensures !Follows(BranchCpu(), AfterShift(), SHIFT_REPORT, RELO, 0, x, Fall, x + 1)
  {
    hide ProperCpu, Placed, Follows, Steps, BeforeShift, AfterShift;
    ProperCpusExist();
    ShiftHeld();
    ShiftExact(BranchCpu(), BeforeShift(), ORIG, AfterShift(), SHIFT_REPORT, SHIFT, 0, RELO, 0, x);
  }
}
