/** ScanMethod's walk over the code units of a method. */
module DexCode {
  import opened DexFormat

  const CONST_STRING := 0x1a
  const CONST_STRING_JUMBO := 0x1b

  /** opcode_len, run by run. */
  function OpcodeLen(op: nat): (r: nat)
    ensures 1 <= r <= 5
  {
    if op == 0x18 then 5
    else if 0xfa <= op <= 0xfb then 4
    else if op in {0x03, 0x06, 0x09, 0x14, 0x17, 0x1b, 0xe9, 0xea, 0xfc, 0xfd} || 0x24 <= op <= 0x26 || 0x2a <= op <= 0x2c
            || 0x6e <= op <= 0x72 || 0x74 <= op <= 0x78 then 3
    else if op in {0x02, 0x05, 0x08, 0x13, 0x15, 0x16, 0x19, 0x1a, 0x1c, 0x1f, 0x20, 0x22, 0x23, 0x29, 0xfe, 0xff}
            || 0x2d <= op <= 0x3d || 0x44 <= op <= 0x6d || 0x90 <= op <= 0xaf || 0xd0 <= op <= 0xe8 || 0xeb <= op <= 0xf2 then 2
    else 1
  }

  datatype Kind = StringUse | Getting | Setting | Invoking

  /** An instruction that names a string, a field or a method. */
  datatype Use = Use(kind: Kind, idx: nat)

  predicate IsGet(op: nat) { 0x52 <= op <= 0x58 || 0x60 <= op <= 0x66 }
  predicate IsPut(op: nat) { 0x59 <= op <= 0x5f || 0x67 <= op <= 0x6d }
  predicate IsInvoke(op: nat) { 0x6e <= op <= 0x72 || 0x74 <= op <= 0x78 }

  /** The units that the loop reads at p are there. */
  predicate Readable(code: seq<Unit>, p: nat)
    requires p < |code|
  {
    p + (if code[p] == PACKED_SWITCH || code[p] == SPARSE_SWITCH then 2
         else if code[p] == FILL_ARRAY_DATA then 4
         else OpcodeLen(code[p] % 0x100)) <= |code|
  }

  /** The 32-bit value in two units. */
  function Wide32(lo: int, hi: int): int { lo + 0x1_0000 * hi }

  /** What the instruction at p names. */
  function UseAt(code: seq<Unit>, p: nat): (r: seq<Use>)
    requires p < |code| && Readable(code, p)
    ensures |r| <= 1
  {
    var op := code[p] % 0x100;
    if op == CONST_STRING then [Use(StringUse, code[p + 1])]
    else if op == CONST_STRING_JUMBO then [Use(StringUse, Wide32(code[p + 1], code[p + 2]))]
    else if IsGet(op) then [Use(Getting, code[p + 1])]
    else if IsPut(op) then [Use(Setting, code[p + 1])]
    else if IsInvoke(op) then [Use(Invoking, code[p + 1])]
    else []
  }

  /** How far the cursor moves from p: past a payload, whose array length is a 32-bit product, and
      past the opcode. */
  function Advance(code: seq<Unit>, p: nat): (r: nat)
    requires p < |code| && Readable(code, p)
    ensures r > 0
  {
    (if code[p] == PACKED_SWITCH then code[p + 1] * 2 + 3
     else if code[p] == SPARSE_SWITCH then code[p + 1] * 4 + 1
     else if code[p] == FILL_ARRAY_DATA then
       ((Wide32(code[p + 2], code[p + 3]) * code[p + 1]) % WRAP + 1) % WRAP / 2 + 3
     else 0) + OpcodeLen(code[p] % 0x100)
  }

  /** Every cursor position from p on can be read. */
  predicate Scannable(code: seq<Unit>, p: nat)
    decreases |code| - p
  {
    p < |code| ==> Readable(code, p) && Scannable(code, p + Advance(code, p))
  }

  /** The cursor positions from p on. */
  function Visits(code: seq<Unit>, p: nat): seq<nat>
    requires Scannable(code, p)
    decreases |code| - p
  {
    if p >= |code| then [] else [p] + Visits(code, p + Advance(code, p))
  }

  /** Everything that the code from p on names, in order. */
  function UsesFrom(code: seq<Unit>, p: nat): seq<Use>
    requires Scannable(code, p)
    decreases |code| - p
  {
    if p >= |code| then [] else UseAt(code, p) + UsesFrom(code, p + Advance(code, p))
  }

  // ----- well-formed code -----

  /** The table of lengths is right for every opcode's format. */
  lemma LengthByFormat(op: Byte)
    ensures OpcodeLen(op) == UnitsOf(FormatOf(op))
  {
  }

  /** Where the items start, the first at p. */
  function Starts(items: seq<Item>, p: nat): seq<nat>
    requires forall i :: i in items ==> ItemOk(i)
  {
    if items == [] then [] else [p] + Starts(items[1..], p + |Units(items[0])|)
  }

  /** The byte count of an array payload, rounded up to units, fits the code's 32-bit arithmetic. */
  predicate Fits(i: Item) { i.ArrayData? ==> i.size * i.width + 1 < WRAP }

  lemma SmallMod(x: nat)
    requires x + 1 < WRAP
    ensures (x % WRAP + 1) % WRAP == x + 1
  {
  }

  lemma WrappedIsLess(x: nat)
    requires x + 1 >= WRAP
    ensures (x % WRAP + 1) % WRAP / 2 < (x + 1) / 2
  {
    assert (x % WRAP + 1) % WRAP <= WRAP - 1;
    if x + 1 < WRAP + 2 {
      assert x == WRAP - 1 || x == WRAP;
    }
  }

  /** At the start of an item the cursor moves exactly to its end, unless the 32-bit product
      wraps: then it stops short, inside the payload. */
  lemma {:induction false} ItemAdvance(low: seq<Unit>, i: Item, high: seq<Unit>)
    requires ItemOk(i)
    ensures var code := low + Units(i) + high;
      && Readable(code, |low|)
      && (Fits(i) ==> Advance(code, |low|) == |Units(i)|)
      && (!Fits(i) ==> Advance(code, |low|) < |Units(i)|)
  {
    if i.ArrayData? {
      ArrayAdvance(low, i, high);
    } else {
      UnitsAt(low, Units(i), high);
      PlainAdvance(low + Units(i) + high, |low|, i);
    }
  }

  lemma {:induction false} UnitsAt(low: seq<Unit>, us: seq<Unit>, high: seq<Unit>)
    requires us != []
    ensures var code, p := low + us + high, |low|;
      p + |us| <= |code| && code[p] == us[0] && (|us| > 1 ==> code[p + 1] == us[1])
  {
  }

  lemma {:induction false} PlainAdvance(code: seq<Unit>, p: nat, i: Item)
    requires ItemOk(i) && !i.ArrayData?
    requires var us := Units(i); p + |us| <= |code| && code[p] == us[0] && (|us| > 1 ==> code[p + 1] == us[1])
    ensures Readable(code, p) && Advance(code, p) == |Units(i)|
  {
    if i.Insn? {
      LengthByFormat(i.units[0] % 0x100);
      hide OpcodeLen, UnitsOf, FormatOf;
    }
  }

  lemma {:induction false} ArrayAdvance(low: seq<Unit>, i: Item, high: seq<Unit>)
    requires ItemOk(i) && i.ArrayData?
    ensures var code := low + Units(i) + high;
      && Readable(code, |low|)
      && (Fits(i) ==> Advance(code, |low|) == |Units(i)|)
      && (!Fits(i) ==> Advance(code, |low|) < |Units(i)|)
  {
    var code, p, us, x := low + Units(i) + high, |low|, Units(i), i.size * i.width;
    var head, tail := us[..4], us[4..] + high;
    assert code == low + head + tail;
    FourAt(low, head, tail);
    assert Wide32(us[2], us[3]) == i.size;
    if Fits(i) {
      SmallMod(x);
    } else {
      WrappedIsLess(x);
    }
    assert Advance(code, p) == (x % WRAP + 1) % WRAP / 2 + 3 + OpcodeLen(0);
  }

  lemma {:induction false} FourAt(low: seq<Unit>, head: seq<Unit>, tail: seq<Unit>)
    requires |head| == 4
    ensures var code, p := low + head + tail, |low|;
      code[p] == head[0] && code[p + 1] == head[1] && code[p + 2] == head[2] && code[p + 3] == head[3]
  {
  }

  /** On code whose array payloads fit, the cursor visits the instruction starts and nothing else. */
  lemma {:induction false} VisitsFitting(low: seq<Unit>, items: seq<Item>)
    decreases |items|
    requires forall i :: i in items ==> ItemOk(i) && Fits(i)
    ensures var code := low + Code(items);
      Scannable(code, |low|) && Visits(code, |low|) == Starts(items, |low|)
  {
    hide ItemOk, Units, Advance, Readable, Fits;
    var code := low + Code(items);
    if items != [] {
      var us, rest := Units(items[0]), Code(items[1..]);
      Regroup(low, us, rest);
      ItemAdvance(low, items[0], rest);
      VisitsFitting(low + us, items[1..]);
    }
  }

  lemma Regroup(a: seq<Unit>, b: seq<Unit>, c: seq<Unit>)
    ensures a + (b + c) == a + b + c == (a + b) + c
  {
  }

  /** The header's file_size is a 32-bit number of bytes, so no dex file has more code units. */
  const FILE_UNITS := WRAP / 2

  lemma {:induction false} UnitsWithin(items: seq<Item>, i: Item)
    requires i in items && forall x :: x in items ==> ItemOk(x)
    ensures |Units(i)| <= |Code(items)|
  {
    hide ItemOk, Units;
    if i != items[0] {
      UnitsWithin(items[1..], i);
    }
  }

  lemma MisfitIsLong(i: Item)
    requires ItemOk(i) && !Fits(i)
    ensures |Units(i)| >= FILE_UNITS
  {
  }

  /** A payload whose product wraps is longer than any dex file. */
  lemma {:induction false} FileFits(items: seq<Item>)
    requires (forall i :: i in items ==> ItemOk(i)) && |Code(items)| < FILE_UNITS
    ensures forall i :: i in items ==> Fits(i)
  {
    forall i | i in items ensures Fits(i) {
      UnitsWithin(items, i);
      if !Fits(i) {
        MisfitIsLong(i);
      }
    }
  }

  /** On the well-formed code of any dex file, the cursor visits the instruction starts and nothing
      else, and comes to an end. */
  lemma {:induction false} VisitsStarts(low: seq<Unit>, items: seq<Item>)
    requires (forall i :: i in items ==> ItemOk(i)) && |Code(items)| < FILE_UNITS
    ensures var code := low + Code(items);
      Scannable(code, |low|) && Visits(code, |low|) == Starts(items, |low|)
  {
    FileFits(items);
    VisitsFitting(low, items);
  }

  // ----- what the code names -----

  /** What an instruction names: gets and puts of both kinds, calls of both forms. */
  function Names(r: Ref): Use
    requires RefOk(r)
  {
    match r
    case ConstString(_, s) => Use(StringUse, s)
    case ConstStringJumbo(_, s) => Use(StringUse, s)
    case InstanceGet(_, _, f) => Use(Getting, f)
    case StaticGet(_, _, f) => Use(Getting, f)
    case InstancePut(_, _, f) => Use(Setting, f)
    case StaticPut(_, _, f) => Use(Setting, f)
    case Invoke(_, _, m, _) => Use(Invoking, m)
    case InvokeRange(_, _, m, _) => Use(Invoking, m)
  }

  ghost predicate IsRef(i: Item, r: Ref) { RefOk(r) && i == Insn(Encoded(r)) }

  /** The uses in an item: that of the instruction it is, none if it is no such instruction. */
  ghost predicate NamedBy(i: Item, us: seq<Use>) {
    && (forall r :: IsRef(i, r) ==> us == [Names(r)])
    && ((forall r :: !IsRef(i, r)) ==> us == [])
  }

  ghost predicate AllNamedBy(items: seq<Item>, uss: seq<seq<Use>>) {
    |uss| == |items| && forall k :: 0 <= k < |items| ==> NamedBy(items[k], uss[k])
  }

  function Joined(uss: seq<seq<Use>>): seq<Use> { if uss == [] then [] else uss[0] + Joined(uss[1..]) }

  lemma LowByte(op: Byte, b: Byte)
    ensures (op + 0x100 * b) % 0x100 == op
  {
  }

  lemma EncodedHead(r: Ref)
    requires RefOk(r)
    ensures |Encoded(r)| >= 2 && Encoded(r)[0] % 0x100 == Opcode(r)
  {
    LowByte(Opcode(r), match r
      case ConstString(b, _) => b
      case ConstStringJumbo(b, _) => b
      case InstanceGet(_, b, _) => b
      case InstancePut(_, b, _) => b
      case StaticGet(_, b, _) => b
      case StaticPut(_, b, _) => b
      case Invoke(_, b, _, _) => b
      case InvokeRange(_, b, _, _) => b);
    if !r.ConstString? && !r.ConstStringJumbo? {
      hide Opcode;
    }
  }

  lemma EncodedLength(r: Ref)
    requires RefOk(r)
    ensures Opcode(r) > 0 && |Encoded(r)| == UnitsOf(FormatOf(Opcode(r)))
  {
  }

  /** Every such instruction is well formed. */
  lemma RefIsItem(r: Ref)
    requires RefOk(r)
    ensures ItemOk(Insn(Encoded(r)))
  {
    hide Opcode, Encoded, FormatOf, UnitsOf;
    EncodedHead(r);
    EncodedLength(r);
  }

  lemma OpcodeKinds(r: Ref)
    ensures var op := Opcode(r);
      && (IsGet(op) <==> r.InstanceGet? || r.StaticGet?)
      && (IsPut(op) <==> r.InstancePut? || r.StaticPut?)
      && (IsInvoke(op) <==> r.Invoke? || r.InvokeRange?)
      && (op == CONST_STRING <==> r.ConstString?)
      && (op == CONST_STRING_JUMBO <==> r.ConstStringJumbo?)
  {
  }

  lemma {:induction false} RefRead(code: seq<Unit>, p: nat, r: Ref)
    requires RefOk(r) && p < |code| && Readable(code, p)
    requires var us := Encoded(r);
      |us| >= 2 && p + |us| <= |code| && code[p] == us[0] && code[p + 1] == us[1] && (|us| > 2 ==> code[p + 2] == us[2])
    ensures UseAt(code, p) == [Names(r)]
  {
    hide Opcode, IsGet, IsPut, IsInvoke, Readable;
    EncodedHead(r);
    OpcodeKinds(r);
  }

  function AccessOf(n: nat): (a: Access)
    requires n < 7
    ensures Nth(a) == n
  {
    [Word, Wide, Object, Boolean, Byte_, Char, Short][n]
  }

  function CallOf(n: nat): Call
    requires n < 5
  {
    [Virtual, Super, Direct, Static, Interface][n]
  }

  /** The instruction that a use was read from. */
  lemma {:induction false} RefOf(units: seq<Unit>) returns (r: Ref)
    requires ItemOk(Insn(units))
    requires var op := units[0] % 0x100; op == CONST_STRING || op == CONST_STRING_JUMBO || IsGet(op) || IsPut(op) || IsInvoke(op)
    ensures RefOk(r) && units == Encoded(r)
  {
    var op, b := units[0] % 0x100, units[0] / 0x100;
    if op == CONST_STRING {
      r := ConstString(b, units[1]);
    } else if op == CONST_STRING_JUMBO {
      r := ConstStringJumbo(b, Wide32(units[1], units[2]));
    } else if op <= 0x6d {
      r := FieldRef(units, op, b);
    } else {
      r := CallRef(units, op, b);
    }
  }

  lemma {:induction false} FieldRef(units: seq<Unit>, op: Byte, b: Byte) returns (r: Ref)
    requires |units| == 2 && units[0] == op + 0x100 * b && (IsGet(op) || IsPut(op))
    ensures RefOk(r) && units == Encoded(r)
  {
    hide AccessOf, Nth;
    r := if op <= 0x58 then InstanceGet(AccessOf(op - 0x52), b, units[1])
         else if op <= 0x5f then InstancePut(AccessOf(op - 0x59), b, units[1])
         else if op <= 0x66 then StaticGet(AccessOf(op - 0x60), b, units[1])
         else StaticPut(AccessOf(op - 0x67), b, units[1]);
  }

  lemma {:induction false} CallRef(units: seq<Unit>, op: Byte, b: Byte) returns (r: Ref)
    requires |units| == 3 && units[0] == op + 0x100 * b && IsInvoke(op)
    ensures RefOk(r) && units == Encoded(r)
  {
    r := if op <= 0x72 then Invoke(CallOf(op - 0x6e), b, units[1], units[2])
         else InvokeRange(CallOf(op - 0x74), b, units[1], units[2]);
  }

  lemma {:induction false} UnitAt(low: seq<Unit>, us: seq<Unit>, high: seq<Unit>, k: nat)
    requires k < |us|
    ensures (low + us + high)[|low| + k] == us[k]
  {
  }

  /** What is read at the start of an item is what the item names. */
  lemma {:induction false} ItemUses(low: seq<Unit>, i: Item, high: seq<Unit>)
    requires ItemOk(i)
    ensures var code := low + Units(i) + high;
      Readable(code, |low|) && NamedBy(i, UseAt(code, |low|))
  {
    var code, p, us := low + Units(i) + high, |low|, Units(i);
    ItemAdvance(low, i, high);
    UnitAt(low, us, high, 0);
    forall r | IsRef(i, r) ensures UseAt(code, p) == [Names(r)] {
      EncodedHead(r);
      UnitAt(low, us, high, 1);
      if |us| > 2 {
        UnitAt(low, us, high, 2);
      }
      RefRead(code, p, r);
    }
    if i.Insn? && UseAt(code, p) != [] {
      var r := RefOf(us);
      assert IsRef(i, r);
    }
  }

  /** The scan of the well-formed code of any dex file finds the references that its instructions
      were built with, item by item and in order, and nothing else. */
  lemma {:induction false} CodeUses(items: seq<Item>) returns (uss: seq<seq<Use>>)
    requires (forall i :: i in items ==> ItemOk(i)) && |Code(items)| < FILE_UNITS
    ensures AllNamedBy(items, uss)
    ensures Scannable(Code(items), 0) && UsesFrom(Code(items), 0) == Joined(uss)
  {
    hide AllNamedBy, Joined, ItemOk;
    FileFits(items);
    VisitsStarts([], items);
    uss := UsesFitting([], items);
    assert [] + Code(items) == Code(items);
  }

  lemma {:induction false} UsesFitting(low: seq<Unit>, items: seq<Item>) returns (uss: seq<seq<Use>>)
    requires forall i :: i in items ==> ItemOk(i) && Fits(i)
    requires Scannable(low + Code(items), |low|)
    ensures AllNamedBy(items, uss) && UsesFrom(low + Code(items), |low|) == Joined(uss)
    decreases |items|
  {
    hide ItemOk, Units, Advance, Readable, Fits, UseAt, NamedBy;
    uss := [];
    if items != [] {
      var us, rest := Units(items[0]), Code(items[1..]);
      var code := low + Code(items);
      Regroup(low, us, rest);
      ItemAdvance(low, items[0], rest);
      ItemUses(low, items[0], rest);
      var tail := UsesFitting(low + us, items[1..]);
      uss := [UseAt(code, |low|)] + tail;
      assert uss[1..] == tail;
    }
  }

  // ----- exactly when the cursor stays on instruction starts -----

  /** The cursor after n steps from p; none if it ran out of code before. */
  function CursorAt(code: seq<Unit>, p: nat, n: nat): (r: int)
    ensures r == -1 || r >= p
    decreases n
  {
    if n == 0 then p
    else if p >= |code| || !Readable(code, p) then -1
    else CursorAt(code, p + Advance(code, p), n - 1)
  }

  /** Where item n starts, or the end of the code for n == |items|. */
  function StartOf(items: seq<Item>, n: nat): nat
    requires n <= |items| && forall i :: i in items ==> ItemOk(i)
  {
    if n == 0 then 0 else |Units(items[0])| + StartOf(items[1..], n - 1)
  }

  lemma {:induction false} CursorFollows(low: seq<Unit>, items: seq<Item>, n: nat)
    requires n <= |items| && forall i :: i in items ==> ItemOk(i)
    requires forall i :: i in items[..n] ==> Fits(i)
    ensures CursorAt(low + Code(items), |low|, n) == |low| + StartOf(items, n)
    decreases n
  {
    hide ItemOk, Units, Advance, Readable, Fits;
    if n > 0 {
      var us, rest := Units(items[0]), Code(items[1..]);
      var code := low + Code(items);
      assert code == low + us + rest == (low + us) + rest;
      ItemAdvance(low, items[0], rest);
      assert items[0] in items[..n] && items[1..][..n - 1] == items[1..n];
      CursorFollows(low + us, items[1..], n - 1);
    }
  }

  lemma {:induction false} CursorStopsShort(low: seq<Unit>, items: seq<Item>, n: nat)
    requires n < |items| && forall i :: i in items ==> ItemOk(i)
    requires (forall i :: i in items[..n] ==> Fits(i)) && !Fits(items[n])
    ensures |low| + StartOf(items, n) < CursorAt(low + Code(items), |low|, n + 1) < |low| + StartOf(items, n + 1)
    decreases n
  {
    hide ItemOk, Units, Advance, Readable, Fits;
    var us, rest := Units(items[0]), Code(items[1..]);
    var code := low + Code(items);
    assert code == low + us + rest == (low + us) + rest;
    ItemAdvance(low, items[0], rest);
    if n > 0 {
      assert items[0] in items[..n] && items[1..][..n - 1] == items[1..n];
      CursorStopsShort(low + us, items[1..], n - 1);
    } else {
      assert CursorAt(code, |low|, 1) == |low| + Advance(code, |low|);
      assert StartOf(items, 1) == |us|;
    }
  }

  /** The cursor is at the start of item n after n steps, for every n, exactly when every array
      payload fits the 32-bit product. */
  lemma {:induction false} CursorExact(items: seq<Item>)
    requires forall i :: i in items ==> ItemOk(i)
    ensures (forall n :: 0 <= n <= |items| ==> CursorAt(Code(items), 0, n) == StartOf(items, n))
      <==> forall i :: i in items ==> Fits(i)
  {
    assert [] + Code(items) == Code(items);
    if forall i :: i in items ==> Fits(i) {
      forall n | 0 <= n <= |items| ensures CursorAt(Code(items), 0, n) == StartOf(items, n) {
        CursorFollows([], items, n);
      }
    } else {
      var n := FirstMisfit(items);
      CursorStopsShort([], items, n);
      assert CursorAt(Code(items), 0, n + 1) != StartOf(items, n + 1);
    }
  }

  ghost function FirstMisfit(items: seq<Item>): (n: nat)
    requires exists i :: i in items && !Fits(i)
    ensures n < |items| && !Fits(items[n]) && forall i :: i in items[..n] ==> Fits(i)
  {
    if !Fits(items[0]) then 0
    else
      var n := FirstMisfit(items[1..]);
      assert items[..n + 1] == [items[0]] + items[1..][..n];
      n + 1
  }
}
