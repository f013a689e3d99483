/** The instruction stream of a method in the Dalvik executable format: instruction formats, payloads,
    and the instructions that name a string, a field or a method. */
module DexFormat {

  type Byte = b: int | 0 <= b < 0x100
  type Unit = u: int | 0 <= u < 0x1_0000

  const PACKED_SWITCH := 0x0100
  const SPARSE_SWITCH := 0x0200
  const FILL_ARRAY_DATA := 0x0300
  const WRAP := 0x1_0000_0000

  // ----- instruction formats -----

  /** The formats by their names: number of units, number of registers, kind of extra data. */
  datatype Format = F10x | F10t | F11n | F11x | F12x | F20t | F21c | F21h | F21s | F21t | F22b | F22c | F22s | F22t | F22x | F23x
    | F30t | F31c | F31i | F31t | F32x | F35c | F3rc | F45cc | F4rcc | F51l

  function UnitsOf(f: Format): nat {
    match f
    case F10x | F10t | F11n | F11x | F12x => 1
    case F20t | F21c | F21h | F21s | F21t | F22b | F22c | F22s | F22t | F22x | F23x => 2
    case F30t | F31c | F31i | F31t | F32x | F35c | F3rc => 3
    case F45cc | F4rcc => 4
    case F51l => 5
  }

  /** The format of every opcode; E3 to F2 are the runtime's own field accesses and calls, and
      opcodes without an instruction are one unit. */
  function FormatOf(op: Byte): Format {
    if op <= 0x11 then LowFormat(op)
    else if op <= 0x3d then MidFormat(op)
    else if op <= 0x43 then F10x
    else if op <= 0x51 then F23x                                     // comparisons of arrays: aget, aput
    else if op <= 0x5f then F22c                                     // iget, iput
    else if op <= 0x6d then F21c                                     // sget, sput
    else if op <= 0x72 then F35c                                     // invoke
    else if op == 0x73 then F10x
    else if op <= 0x78 then F3rc                                     // invoke/range
    else if op <= 0x7a then F10x
    else if op <= 0x8f then F12x                                     // unary operations
    else if op <= 0xaf then F23x                                     // binary operations
    else if op <= 0xcf then F12x                                     // binary operations with two addresses
    else if op <= 0xd7 then F22s
    else if op <= 0xe2 then F22b
    else HighFormat(op)
  }

  /** Moves and returns. */
  function LowFormat(op: Byte): Format {
    if op == 0x00 || op == 0x0e then F10x
    else if op == 0x01 || op == 0x04 || op == 0x07 then F12x
    else if op == 0x02 || op == 0x05 || op == 0x08 then F22x
    else if op == 0x03 || op == 0x06 || op == 0x09 then F32x
    else F11x
  }

  /** Constants, type operations, branches and comparisons. */
  function MidFormat(op: Byte): Format {
    match op
    case 0x12 => F11n
    case 0x13 | 0x16 => F21s
    case 0x14 | 0x17 => F31i
    case 0x15 | 0x19 => F21h
    case 0x18 => F51l
    case 0x1b => F31c
    case 0x1a | 0x1c | 0x1f | 0x22 => F21c
    case 0x20 | 0x23 => F22c
    case 0x21 => F12x
    case 0x24 => F35c
    case 0x25 => F3rc
    case 0x26 | 0x2b | 0x2c => F31t
    case 0x1d | 0x1e | 0x27 => F11x
    case 0x28 => F10t
    case 0x29 => F20t
    case 0x2a => F30t
    case _ => if op <= 0x31 then F23x else if op <= 0x37 then F22t else F21t
  }

  function HighFormat(op: Byte): Format {
    match op
    case 0xe9 | 0xfc => F35c
    case 0xea | 0xfd => F3rc
    case 0xfa => F45cc
    case 0xfb => F4rcc
    case 0xfe | 0xff => F21c
    case _ => if op <= 0xf2 then F22c else F10x
  }

  // ----- items -----

  /** An item of well-formed code: an instruction, or one of the three payloads with its data. */
  datatype Item =
    | Insn(units: seq<Unit>)
    | Packed(count: Unit, body: seq<Unit>)
    | Sparse(count: Unit, body: seq<Unit>)
    | ArrayData(width: Unit, size: nat, body: seq<Unit>)

  /** Instruction lengths by format; payload lengths as the format gives them: packed-switch
      2n + 4 units, sparse-switch 4n + 2, fill-array-data (n * w + 1) / 2 + 4. */
  predicate ItemOk(i: Item) {
    match i
    case Insn(units) =>
      && units != [] && units[0] !in {PACKED_SWITCH, SPARSE_SWITCH, FILL_ARRAY_DATA}
      && |units| == UnitsOf(FormatOf(units[0] % 0x100))
    case Packed(size, body) => |body| == size * 2 + 2
    case Sparse(size, body) => |body| == size * 4
    case ArrayData(width, size, body) => size < WRAP && |body| == (size * width + 1) / 2
  }

  function Units(i: Item): (r: seq<Unit>)
    requires ItemOk(i)
    ensures r != []
  {
    match i
    case Insn(units) => units
    case Packed(size, body) => [PACKED_SWITCH, size] + body
    case Sparse(size, body) => [SPARSE_SWITCH, size] + body
    case ArrayData(width, size, body) => [FILL_ARRAY_DATA, width, size % 0x1_0000, size / 0x1_0000] + body
  }

  function Code(items: seq<Item>): seq<Unit>
    requires forall i :: i in items ==> ItemOk(i)
  {
    if items == [] then [] else Units(items[0]) + Code(items[1..])
  }

  // ----- instructions that name something -----

  datatype Access = Word | Wide | Object | Boolean | Byte_ | Char | Short
  datatype Call = Virtual | Super | Direct | Static | Interface

  /** The constructors carry the byte beside the opcode, the index, and the unit of registers. */
  datatype Ref =
    | ConstString(reg: Byte, string_: Unit)
    | ConstStringJumbo(reg: Byte, jumbo: nat)
    | InstanceGet(access: Access, regs: Byte, field: Unit)
    | InstancePut(access: Access, regs: Byte, field: Unit)
    | StaticGet(access: Access, reg: Byte, field: Unit)
    | StaticPut(access: Access, reg: Byte, field: Unit)
    | Invoke(call: Call, count: Byte, callee: Unit, args: Unit)
    | InvokeRange(call: Call, count: Byte, callee: Unit, first: Unit)

  predicate RefOk(r: Ref) { r.ConstStringJumbo? ==> r.jumbo < WRAP }

  function Nth(a: Access): nat {
    match a
    case Word => 0 case Wide => 1 case Object => 2 case Boolean => 3 case Byte_ => 4 case Char => 5 case Short => 6
  }

  function Opcode(r: Ref): Byte {
    match r
    case ConstString(_, _) => 0x1a
    case ConstStringJumbo(_, _) => 0x1b
    case InstanceGet(a, _, _) => 0x52 + Nth(a)
    case InstancePut(a, _, _) => 0x59 + Nth(a)
    case StaticGet(a, _, _) => 0x60 + Nth(a)
    case StaticPut(a, _, _) => 0x67 + Nth(a)
    case Invoke(Virtual, _, _, _) => 0x6e
    case Invoke(Super, _, _, _) => 0x6f
    case Invoke(Direct, _, _, _) => 0x70
    case Invoke(Static, _, _, _) => 0x71
    case Invoke(Interface, _, _, _) => 0x72
    case InvokeRange(Virtual, _, _, _) => 0x74
    case InvokeRange(Super, _, _, _) => 0x75
    case InvokeRange(Direct, _, _, _) => 0x76
    case InvokeRange(Static, _, _, _) => 0x77
    case InvokeRange(Interface, _, _, _) => 0x78
  }

  /** The instruction in units; the low half of a jumbo index comes first. */
  function Encoded(r: Ref): seq<Unit>
    requires RefOk(r)
  {
    match r
    case ConstString(reg, s) => [0x1a + 0x100 * reg, s]
    case ConstStringJumbo(reg, s) => [0x1b + 0x100 * reg, s % 0x1_0000, s / 0x1_0000]
    case InstanceGet(_, regs, f) => [Opcode(r) + 0x100 * regs, f]
    case InstancePut(_, regs, f) => [Opcode(r) + 0x100 * regs, f]
    case StaticGet(_, reg, f) => [Opcode(r) + 0x100 * reg, f]
    case StaticPut(_, reg, f) => [Opcode(r) + 0x100 * reg, f]
    case Invoke(_, count, m, args) => [Opcode(r) + 0x100 * count, m, args]
    case InvokeRange(_, count, m, first) => [Opcode(r) + 0x100 * count, m, first]
  }
}
