# Verified model of the hooking engine and its codecs

This project models, in Dafny 4.11, the stateful parts of the repository that the rest of it
trusts, and proves what they promise. Seven groups of modules follow the program's own structure.

* **ARM64 prologue relocator** (`Arm64*`). A copied prologue is rewritten instruction by instruction:
  branches become literal loads and register branches, `adr`, `adrp` and literal loads become
  constants, guarded branches are inverted, and all literals are placed behind the code and
  back-patched. `Arm64Isa` gives the meaning of the instructions (section C6.2 of the Arm Architecture
  Reference Manual for A-profile) independently of the relocator; every other instruction is an
  arbitrary function on the machine. The theorem is a simulation: the relocated block, entered at
  the image of any instruction, leaves where the original leaves, in the same machine but for x17.
* **x64 relocator** (`X64*`). The same at the level of bytes, with side sequences in memory near the
  operand for RIP-relative instructions and a retry loop that ends. Processor and instruction
  decoder are parameters; what is assumed of them is stated and shown to be satisfiable.
* **Binary AXML codec** (`Axml*`, `NamespaceStack`, `StableSort`). Encoder and decoder are a printer and
  a pull parser. Both are written imperatively and proved against functions on ints; the round trip
  goes from element tree through bytes to parser events, and the sizes that the chunks announce lead
  through the file. The parser's namespace stack, packed into
  one int array, refines a stack of frames of pairs.
* **tinystl hash table** (`HashTable`). One doubly linked list threaded through all buckets, over real
  nodes and a real slot array, refines a finite map for every hash function.
* **LSPlant** (`DebuggableGuard`, `TrampolineAllocator`, `HookTable`). Two lock-free protocols as atomic
  steps of any number of threads in any interleaving, and Hook/UnHook over mutable method records.
* **DexHelper** (`DexFormat`, `DexCode`, `DexIndex`). The bytecode cursor, proved against the Dalvik
  instruction formats and an encoder of the instructions that name something, and the lazily filled
  shared caches, whose answers agree with a full scan after any history of queries.
* **Xposed and memory** (`CallbackChain`, `HookRegistry`, `HookRaces`, `MemoryArenas`). The callback onion,
  the sorted copy-on-write callback sets, hooking beside unhooking in any interleaving, and the arenas
  that hand out executable memory.

The outside world enters as parameters: whether and where `mmap` succeeds, what the kernel's memory
layout is, whether a native hook succeeds, what hooks and hooked methods do, in which order a hash
map yields its keys.

## Where the code does not meet its promise

In each case the code is modelled as it is, the exact condition under which it keeps the promise is
proved, and, unless the condition names the inputs itself, a lemma or method gives one that fails.

* **ARM64.** A 32-bit literal load is relocated as a 64-bit load, because the assembler's `ldr` for a
  register base always emits the 64-bit form (assembler-arm64.h:378-380): right if and only if the next
  four bytes are zero or the target is the zero register (`NarrowLiteralExact`, `NarrowLiteralFails`).
  `b.al` and `b.nv` lose their branch (`ConditionInvertible`, `AlwaysBranchIsLost`).
* **x64.** `jcc rel32` is copied with its displacement, so a taken jump goes astray if and only if the
  code moved (`CopiedJccExact`). The shifts by a constant, 0F 71, 0F 72 and 0F 73, are reported by their
  second opcode byte and without operands, and so taken for short conditional jumps: right if and only
  if the shift changes nothing and the jump, where it is taken, leads behind the emitted code;
  the loop then goes on inside the shift (`ShiftExact`, `MisreadExact`, `ShiftIsLost`).
* **String pool.** The length is written as a short, so a string reads back unchanged if and only if it
  has at most 65535 units (`StringReadsBack`).
* **Attribute names.** An attribute without a namespace borrows the least resource id of the other
  attributes of its name, if and only if there is one and none is 0 (`UnqualifiedBorrowsId`,
  `BorrowingDocument`).
* **Special attributes.** The encoder writes the position of the id, class and style attributes, and 0
  for none; the parser expects the position plus one. They are reported rightly if and only if the
  element has no such attribute (`SpecialExact`, `MistakenId`).
* **Namespaces.** A used namespace that is not one of the document's strings makes the encoder throw
  (`LookupsSucceed`); the `xml` namespace, which no document has to declare, is such a case
  (`XmlLangIsRefused`).
* **Trampolines.** Nothing bounds failed maps, and enough of them make the slot counter carry into the
  page address. `SlotsFineExactly` is the exact bound for any number of callers; `CarryReachable` is a
  run with one caller.
* **IsHooked.** With the default flag, which the public function uses (lsplant.cc:818-825), it answers for
  backups too, although include/lsplant.hpp:130-133 speaks of hooked methods only: wrong if and only if
  the method is a backup (`Engine.IsHooked`, `BackupAnswers`).
* **Near arenas.** A block that ends exactly where the next mapping starts maps one page of that mapping
  over; which requests do is decided by the memory layout, position, range and size (`Overruns`,
  `AllocateNearFromUnusedRegion`, `OverrunHappens`). A later block can then overlap an earlier one
  (`OverrunOverlaps`).
* **First match.** With `find_first` a search for callers or field users may miss the only match
  (`Users`, `FindMethodNaming`, `MissHappens`).
* **Callback order.** `compareTo` subtracts priorities and leaves equal hash codes undecided, so it is an
  order on exactly the sets that `CompareIsOrder` names (`OverflowMisorders`).
* **Concurrent hooks.** hookMethod adds the callback after it has left the lock, so an unhookMethod beside
  it can lose the callback: exactly in the steps that `RegisteredExactly` names (`LostToDroppedRecord`,
  `LostToDrop`), and never if the two do not overlap (`ApartLosesNothing`).

## Model

| member | source | states |
|---|---|---|
| Arm64Correctness.RelocationCorrect | app/src/main/cpp/lspc/Dobby/source/InstructionRelocation/arm64/InstructionRelocationARM64.cc:151-344 | Entered at the image of any prologue instruction, the relocated block reaches the address at which the original, executed by address, leaves the prologue, with equal registers (but x17), stack pointer, flags, vectors and memory; after a linking branch the link register holds the image of the original return address |
| Arm64Correctness.RelocatePrologue | app/src/main/cpp/lspc/Dobby/source/InstructionRelocation/arm64/InstructionRelocationARM64.cc:151-344 | The same about what relo_relocate itself returns: a prologue whose instructions are all of the kinds that the theorem covers is relocated, and its block, entered at the returned offset of any instruction, simulates it |
| Arm64Correctness.SimulateBlock | app/src/main/cpp/lspc/Dobby/source/InstructionRelocation/arm64/InstructionRelocationARM64.cc:159-338 | The same simulation from any instruction on, by the straight line of the original, with the number of steps the relocated code takes |
| Arm64Correctness.RelocationApplies | app/src/main/cpp/lspc/Dobby/source/InstructionRelocation/arm64/InstructionRelocationARM64.cc:151-344 | The conditions of the theorem can be met, for any prologue of idle instructions, at any two places |
| Arm64Correctness.LeavesOnce | app/src/main/cpp/lspc/Dobby/source/InstructionRelocation/arm64/InstructionRelocationARM64.cc:159-322 | Executing the original by address and following its straight line agree whenever the exit lies outside the prologue |
| Arm64Correctness.ConditionInvertible | app/src/main/cpp/lspc/Dobby/source/InstructionRelocation/arm64/InstructionRelocationARM64.cc:244-246 | Flipping bit 0 of a condition negates it for all flags if and only if the condition is not al or nv |
| Arm64Correctness.AlwaysBranchIsLost | app/src/main/cpp/lspc/Dobby/source/InstructionRelocation/arm64/InstructionRelocationARM64.cc:236-262 | A relocated b.al or b.nv falls through to the next image although the original always branches |
| Arm64Correctness.NarrowLiteralExact | app/src/main/cpp/lspc/Dobby/source/InstructionRelocation/arm64/InstructionRelocationARM64.cc:198-206 | A relocated 32-bit literal load gives the original's machine if and only if the four bytes after the literal are zero or the target is the zero register |
| Arm64Correctness.NarrowLiteralFails | app/src/main/cpp/lspc/Dobby/source/InstructionRelocation/arm64/InstructionRelocationARM64.cc:198-206 | It can go wrong: a load at 0x1000, relocated to just behind its literal, for which the two machines differ |
| Arm64Isa.ConditionsCompare | app/src/main/cpp/lspc/Dobby/source/InstructionRelocation/arm64/InstructionRelocationARM64.cc:236-262 | What the conditions that are relocated test: after a comparison of any two values they hold exactly for equal, unsigned not less, negative, overflow, unsigned greater, signed not less, signed greater, and the opposites |
| Arm64Isa.TestsMean | app/src/main/cpp/lspc/Dobby/source/InstructionRelocation/arm64/InstructionRelocationARM64.cc:264-319 | cbz and cbnz test the whole register or its low half, tbz and tbnz one bit, and register 31 is zero |
| Arm64Simulation.SimulateOne | app/src/main/cpp/lspc/Dobby/source/InstructionRelocation/arm64/InstructionRelocationARM64.cc:173-319 | Each handled instruction, executed in any machine equal but for x17, is matched by its image: same effect, and control at the image of the next instruction, at the branch target, or linked |
| Arm64Simulation.RunMov | app/src/main/cpp/lspc/Dobby/source/core/assembler/assembler-arm64.h:536-547 | movz and three movk leave exactly the 64-bit constant in the register |
| Arm64Simulation.RunLongBranch | app/src/main/cpp/lspc/Dobby/source/core/assembler/assembler-arm64.h:526-534 | The literal load and register branch go to the literal's value, through x17 |
| Arm64Relocator.Relocate | app/src/main/cpp/lspc/Dobby/source/InstructionRelocation/arm64/InstructionRelocationARM64.cc:151-344 | The whole of relo_relocate: it succeeds if and only if no instruction decodes to a literal load with opc 2 or 3; the image is the items of all instructions in order, bound; offsets[k] is the byte offset of instruction k's image |
| Arm64Relocator.RelocateAll | app/src/main/cpp/lspc/Dobby/source/InstructionRelocation/arm64/InstructionRelocationARM64.cc:159-322 | The loop: every instruction's items in order and the offset map, or the abort at exactly those literal loads |
| Arm64Relocator.RelocateOne | app/src/main/cpp/lspc/Dobby/source/InstructionRelocation/arm64/InstructionRelocationARM64.cc:173-319 | One iteration appends exactly the template of its instruction to the buffer, labels and references |
| Arm64Relocator.EmitLongBranch | app/src/main/cpp/lspc/Dobby/source/InstructionRelocation/arm64/InstructionRelocationARM64.cc:180-190 | A fresh label with the target, the guard if any, a load recorded with that label, the register branch |
| Arm64Layout.LoadInImage | app/src/main/cpp/lspc/Dobby/source/core/assembler/assembler.cc:39-44 | In the finished block each literal load decodes to an ldr of x17 whose offset leads to its own literal's two words |
| Arm64Layout.DecodeFlipCompare | app/src/main/cpp/lspc/Dobby/source/InstructionRelocation/arm64/InstructionRelocationARM64.cc:269-278 | The flipped cbz/cbnz decodes to the opposite test of the same register with offset 12 |
| Arm64Layout.DecodeFlipTest | app/src/main/cpp/lspc/Dobby/source/InstructionRelocation/arm64/InstructionRelocationARM64.cc:296-305 | The flipped tbz/tbnz decodes to the opposite test of the same bit and register with offset 12 |
| Arm64Layout.DecodeFlipCond | app/src/main/cpp/lspc/Dobby/source/InstructionRelocation/arm64/InstructionRelocationARM64.cc:242-251 | The flipped b.cond decodes to the inverted condition with offset 12 |
| Arm64Assembler.RelocBindCorrect | app/src/main/cpp/lspc/Dobby/source/core/assembler/assembler.cc:31-44 | For buffers below 2^20 bytes, after binding every recorded load decodes to the offset of its own label's slot with its other fields kept, every slot holds its label's value, and no other word has changed |
| Arm64Assembler.BindPatchesRef | app/src/main/cpp/lspc/Dobby/source/core/assembler/assembler-arm64.cc:6-21 | A recorded load is rewritten once, to the distance of its own label's slot |
| Arm64Assembler.BindKeepsOthers | app/src/main/cpp/lspc/Dobby/source/core/assembler/assembler-arm64.cc:9-20 | No word without a reference changes |
| Arm64Assembler.BindPlacesData | app/src/main/cpp/lspc/Dobby/source/core/assembler/assembler.cc:40-43 | Label j's eight bytes end up 8 * j bytes behind the code |
| Arm64Assembler.Assembler.RelocBind | app/src/main/cpp/lspc/Dobby/source/core/assembler/assembler.cc:39-44 | The loop over the labels computes the binding that the lemmas above speak of, and leaves each label's position |
| Arm64Assembler.Assembler.PseudoBind | app/src/main/cpp/lspc/Dobby/source/core/assembler/assembler.cc:31-37 | Binds one label at the end of the buffer and patches its references |
| Arm64Assembler.Assembler.AppendRelocLabel | app/src/main/cpp/lspc/Dobby/source/core/assembler/assembler.cc:46-48 | Appends the label, with its data and no reference |
| Arm64Assembler.Assembler.LdrTmp | app/src/main/cpp/lspc/Dobby/source/core/assembler/assembler-arm64.h:526-534 | Emits an unlinked load and records its place with the label |
| Arm64Assembler.Assembler.Mov | app/src/main/cpp/lspc/Dobby/source/core/assembler/assembler-arm64.h:536-547 | Emits the four move-wide words of the constant |
| Arm64Assembler.RelocLabel.LinkTo | app/src/main/cpp/lspc/Dobby/source/core/assembler/AssemblerPseudoLabel.h:37-42 | Records one more reference |
| Arm64Codec.DecodersAgreeWithIsa | app/src/main/cpp/lspc/Dobby/source/InstructionRelocation/arm64/inst_decode_encode_kit.h:16-97 | The decoders compute the signed offsets that the architecture defines |
| Arm64Codec.Imm19RoundTrip | app/src/main/cpp/lspc/Dobby/source/InstructionRelocation/arm64/inst_decode_encode_kit.h:31-45 | Decoding an encoded offset gives it back if and only if it is a multiple of 4 in the signed 21-bit range; all other bits stay |
| Arm64Codec.Imm14RoundTrip | app/src/main/cpp/lspc/Dobby/source/InstructionRelocation/arm64/inst_decode_encode_kit.h:16-29 | The same for tbz/tbnz and the signed 16-bit range |
| Arm64Codec.Imm26RoundTrip | app/src/main/cpp/lspc/Dobby/source/InstructionRelocation/arm64/inst_decode_encode_kit.h:47-60 | The same for b/bl and the signed 28-bit range |
| Arm64Codec.ImmHiLoRoundTrip | app/src/main/cpp/lspc/Dobby/source/InstructionRelocation/arm64/inst_decode_encode_kit.h:62-102 | The same for adr (signed 21 bits, no alignment) and adrp (multiples of 4096) |
| X64Correctness.RelocationSimulates | app/src/main/cpp/lspc/Dobby/source/InstructionRelocation/x64/InstructionRelocationX64.cc:16-69 | For any processor that decodes the branches as x64 does: from any data, the relocated block with its side sequences in memory comes to the same exit as the original, by a jump, at the end of the block or by a call with a return address that leads to the relocated next instruction; and the end of the relocated code leads to the end of the original |
| X64Correctness.RelocationApplies | app/src/main/cpp/lspc/Dobby/source/InstructionRelocation/x64/InstructionRelocationX64.cc:16-69 | All its conditions hold together for a block with a conditional jump and an indirect call through RIP, whatever it calls |
| X64Correctness.BlockSimulated | app/src/main/cpp/lspc/Dobby/source/InstructionRelocation/x64/InstructionRelocationX64.cc:30-49 | The same on any chain of placed instructions |
| X64Correctness.OriginalRuns | app/src/main/cpp/lspc/Dobby/source/InstructionRelocation/x86/InstructionRelocationX86Shared.cc:54-186 | The original block really leaves by the exit that the simulation names |
| X64Correctness.RelocatedRuns | app/src/main/cpp/lspc/Dobby/source/InstructionRelocation/x86/InstructionRelocationX86Shared.cc:54-186 | So does the relocated code, and the pushed return address leads to the image of the next instruction |
| X64Correctness.AllPlaced | app/src/main/cpp/lspc/Dobby/source/InstructionRelocation/x64/InstructionRelocationX64.cc:30-40 | With the image and the side sequences in memory every instruction's code is at its address |
| X64Correctness.PlacementInReach | app/src/main/cpp/lspc/Dobby/source/InstructionRelocation/x86/InstructionRelocationX86Shared.cc:91-112 | With a side sequence within 2 GiB of the operand, the new displacement of a moved RIP-relative instruction does not overflow 32 bits |
| X64Correctness.HandledNeverAborts | app/src/main/cpp/lspc/Dobby/source/InstructionRelocation/x86/InstructionRelocationX86Shared.cc:178-186 | A block of instructions that the simulation covers is never given up |
| X64Relocator.JccFollows | app/src/main/cpp/lspc/Dobby/source/InstructionRelocation/x86/InstructionRelocationX86Shared.cc:54-79 | The four-part sequence for a conditional rel8 jump goes to the original target if and only if the condition holds, and otherwise falls out at its end |
| X64Relocator.JccRuns | app/src/main/cpp/lspc/Dobby/source/InstructionRelocation/x86/InstructionRelocationX86Shared.cc:54-79 | That is what the emitted sequence does whatever instruction the report misread |
| X64Relocator.MisreadExact | app/src/main/cpp/lspc/Dobby/source/InstructionRelocation/x86/InstructionRelocationX86Shared.cc:54-79 | For an instruction that does not jump, the sequence follows it if and only if it does nothing and a taken jump leads behind the sequence |
| X64Relocator.ShiftExact | app/src/main/cpp/lspc/Dobby/source/InstructionRelocation/x86/x86_insn_decode/x86_insn_decode.c:453-472 | The shifts 0F 71 to 0F 73 are such instructions: the report ends with the opcode, and the jump goes to the shift's own ModRM byte; the sequence follows the shift if and only if that changes nothing and, where the jump is taken, the code lies 18 bytes before that byte |
| X64Correctness.ShiftIsLost | app/src/main/cpp/lspc/Dobby/source/InstructionRelocation/x86/x86_insn_decode/x86_insn_decode.c:453-472 | psrldq xmm0, 8 is not followed, whatever the data |
| X64Relocator.CopiedJccExact | app/src/main/cpp/lspc/Dobby/source/InstructionRelocation/x86/InstructionRelocationX86Shared.cc:184-186 | jcc rel32 is copied: taken, it goes to the original target plus the distance moved, so it follows the original if and only if it is not taken or nothing moved |
| X64Relocator.JmpFollows | app/src/main/cpp/lspc/Dobby/source/InstructionRelocation/x86/InstructionRelocationX86Shared.cc:129-177 | jmp rel8 and rel32 become an absolute jump to the original target |
| X64Relocator.CallFollows | app/src/main/cpp/lspc/Dobby/source/InstructionRelocation/x86/InstructionRelocationX86Shared.cc:157-168 | call rel32 goes to the original target; its return address leads over the literal to the end of the sequence |
| X64Relocator.RipFollows | app/src/main/cpp/lspc/Dobby/source/InstructionRelocation/x86/InstructionRelocationX86Shared.cc:81-127 | A RIP-relative instruction, moved to the side sequence, has the original's effect and comes back |
| X64Relocator.SideInsn | app/src/main/cpp/lspc/Dobby/source/InstructionRelocation/x86/InstructionRelocationX86Shared.cc:110-120 | Re-encoded in the side sequence it is the same instruction with the same operand address |
| X64Relocator.PlainFollows | app/src/main/cpp/lspc/Dobby/source/InstructionRelocation/x86/InstructionRelocationX86Shared.cc:184-186 | A copied instruction has the original's effect |
| X64Relocator.InsnFollows | app/src/main/cpp/lspc/Dobby/source/InstructionRelocation/x86/InstructionRelocationX86Shared.cc:54-186 | The six shapes together: what is emitted follows the original instruction |
| X64Blocks.GenRelocateCodeShared | app/src/main/cpp/lspc/Dobby/source/InstructionRelocation/x86/InstructionRelocationX86Shared.cc:197-216 | The retry loop ends; it aborts if and only if one of the opcodes E0 to E3 is met that is not RIP-relative; unless that or no memory stops it, the image is that of the original block at the address it got, whatever the near allocator answers, and origin covers whole instructions |
| X64Blocks.GenRelocateCodeFixed | app/src/main/cpp/lspc/Dobby/source/InstructionRelocation/x64/InstructionRelocationX64.cc:16-69 | One pass: aborted exactly at those opcodes, too small exactly when the image exceeds the given size, or the image; origin's new size either way |
| X64Blocks.EmitAll | app/src/main/cpp/lspc/Dobby/source/InstructionRelocation/x64/InstructionRelocationX64.cc:28-40 | The loop emits the layout of exactly the instructions that begin before the given size |
| X64Blocks.GenRelocateSingle | app/src/main/cpp/lspc/Dobby/source/InstructionRelocation/x86/InstructionRelocationX86Shared.cc:32-195 | One instruction's code and side sequence |
| X64Blocks.RetrySelectsSame | app/src/main/cpp/lspc/Dobby/source/InstructionRelocation/x64/InstructionRelocationX64.cc:51-53 | The size written back to origin selects the same instructions on the next pass |
| X64Blocks.RetryLaysOutSame | app/src/main/cpp/lspc/Dobby/source/InstructionRelocation/x64/InstructionRelocationX64.cc:51-53 | And so the same layout |
| X64Blocks.LayoutOk | app/src/main/cpp/lspc/Dobby/source/InstructionRelocation/x64/InstructionRelocationX64.cc:30-40 | The emitted length depends on the instructions alone, not on the address |
| X64Machine.AbsoluteJumpRuns | app/src/main/cpp/lspc/Dobby/source/InstructionRelocation/x86/InstructionRelocationX86Shared.cc:14-21 | The fourteen bytes of an absolute jump go to their target |
| X64Machine.SignExtended | app/src/main/cpp/lspc/Dobby/source/InstructionRelocation/x86/InstructionRelocationX86Shared.cc:57-58 | The 8-bit and 32-bit offsets are taken as signed numbers |
| X64Machine.ProperCpusExist | app/src/main/cpp/lspc/Dobby/source/InstructionRelocation/x86/InstructionRelocationX86Shared.cc:14-21 | The assumptions made about the processor can be met |
| AxmlRoundTrip.EncodeAndDecode | app/src/main/java/axml/xml/AxmlUtil.java:38-64 | Encoding any document and decoding the bytes gives the start of the document, the pre/post-order events with names, namespaces, prefixes, scopes, attributes and the positions reported for id, class and style, and its end; encoding fails exactly when a used namespace is not among the document's strings, or when a size exceeds a Java int |
| AxmlRoundTrip.RoundTrip | app/src/main/java/axml/xml/Resources.java:1393-1508 | On the encoder's file the parser reports exactly those events, the last after the root's last end-namespace chunk at the very end of the file |
| AxmlRoundTrip.TagRuns | app/src/main/java/axml/xml/Resources.java:1393-1508 | An inner element's chunks produce its events and leave the parser's namespace frames as they were |
| AxmlRoundTrip.DeclsPushed | app/src/main/java/axml/xml/Resources.java:1456-1468 | Start-namespace chunks pass silently and push their pairs |
| AxmlRoundTrip.DeclsPopped | app/src/main/java/axml/xml/Resources.java:1456-1468 | End-namespace chunks pass silently and pop as many pairs, whatever order they come in |
| AxmlRoundTrip.PrefixReads | app/src/main/java/axml/xml/Resources.java:800-803 | The prefix of a tag or attribute is that of the last declaration of its namespace in scope: of the innermost element that declares it, and there of the last one |
| AxmlRoundTrip.ResourceIsOwn | app/src/main/java/axml/xml/Resources.java:898-906 | A namespaced attribute reads back the resource id of its own namespace and name, or 0 |
| AxmlRoundTrip.UnqualifiedBorrowsId | app/src/main/java/axml/xml/Chunk.java:556-567 | An attribute without a namespace reads back the least id that an attribute of its name has in the document, or 0: a resource if and only if there is such an id and none of them is 0 |
| AxmlRoundTrip.BorrowingDocument | app/src/main/java/axml/xml/Chunk.java:556-567 | Such a document: `id` with the Android namespace and without one |
| AxmlRoundTrip.SpecialExact | app/src/main/java/axml/xml/Resources.java:1476-1481 | The reported positions of the last android:id, class and style attributes are right if and only if the element has no such attribute; a position n is reported as n - 1, and 0 as none |
| AxmlRoundTrip.MistakenId | app/src/main/java/axml/xml/Chunk.java:312-318 | An element whose attribute before the id is reported as its id |
| AxmlRoundTrip.TextRuns | app/src/main/java/axml/xml/Resources.java:1500-1504 | A text chunk with any string index reads back its line and the string of that index, and nothing else changes |
| AxmlParser.Parser.ReadAll | app/src/main/java/axml/xml/AxmlUtil.java:76-152 | The decoding loop yields exactly the events of the specification run, and says whether it met the end or an exception |
| AxmlParser.Parser.Advance | app/src/main/java/axml/xml/Resources.java:1393-1508 | doNext computes the specification's next event and state, or fails exactly when that has none |
| AxmlParser.Parser.Iterate | app/src/main/java/axml/xml/Resources.java:1410-1507 | One turn of its loop, on the parser's fields |
| AxmlParser.Parser.ReadChunk | app/src/main/java/axml/xml/Resources.java:1441-1507 | The chunk kinds, in the source's order |
| AxmlParser.Parser.ReadStartTag | app/src/main/java/axml/xml/Resources.java:1472-1490 | A start tag's ints, the three positions, the cut of the type cells, and the new namespace frame |
| AxmlParser.Parser.Initialize | app/src/main/java/axml/xml/Resources.java:1394-1401 | The delayed initialization: file header, string pool, first frame |
| AxmlParser.Parser.CutTypes | app/src/main/java/axml/xml/Resources.java:1483-1486 | Every attribute's type cell, and no other, is shifted down to the type |
| AxmlParser.Parser.GetAttribute | app/src/main/java/axml/xml/Resources.java:870-927 | The getters of one attribute |
| AxmlParser.Parser.GetPrefix | app/src/main/java/axml/xml/Resources.java:800-803 | getPrefix: the prefix of the innermost pair with the tag's uri |
| AxmlParser.Parser.GetScope | app/src/main/java/axml/xml/Resources.java:809-823 | The prefixes and uris of all pairs in scope, oldest first |
| AxmlParser.NextAdvances | app/src/main/java/axml/xml/Resources.java:1393-1508 | Every event but the last consumes input, so decoding ends on any file |
| AxmlWriter.Encode | app/src/main/java/axml/xml/AxmlUtil.java:38-64 | The bytes are those of FileWords, and the sizes they announce lead through the file: the header's is the length in bytes, and from chunk to chunk they lead through pool, resource map and the document's tags to the very end; failure exactly as EncodeAndDecode says |
| AxmlWriter.WriteFile | app/src/main/java/axml/xml/Chunk.java:834-838 | Pool, resource map and content, in this order, or the exception of the first failed lookup |
| AxmlWriter.Prepare | app/src/main/java/axml/xml/Chunk.java:829-831 | Content is calculated before the pool freezes: the frozen pool is sorted, its texts and its qualified names are the document's, and all lookups will succeed if and only if every namespace is one of the texts |
| AxmlWriter.WriteTag | app/src/main/java/axml/xml/Chunk.java:608-615 | A tag's chunks; the position advances by exactly the size that calc computed, and the int written second in each chunk is its own length (AxmlChunks) |
| AxmlWriter.WriteRaw | app/src/main/java/axml/xml/Chunk.java:408-427 | A string's length, units, zero and padding, as many bytes as size() says |
| AxmlWriter.WritePool | app/src/main/java/axml/xml/Chunk.java:490-496 | The pool chunk with its header, offsets and strings |
| AxmlWriter.WriteResourceMap | app/src/main/java/axml/xml/Chunk.java:245-248 | The resource map chunk |
| AxmlWriter.StringOffsets | app/src/main/java/axml/xml/Chunk.java:474-477 | The offsets that preWrite collects |
| AxmlEncoder.TagWords | app/src/main/java/axml/xml/Chunk.java:597-606 | Size law: four times the ints written is the size computed before, recursively; TagWalk says that this is what the chunks announce |
| AxmlEncoder.FileWords | app/src/main/java/axml/xml/Chunk.java:829-831 | Size law up to the file header; FileWalk says that this is what it announces |
| AxmlChunks.FileWalk | app/src/main/java/axml/xml/Chunk.java:90-97 | The header announces four times the number of ints, and going from chunk to chunk by each second int meets the pool, the resource map and exactly the document's tag chunks, and ends at the end |
| AxmlChunks.TagWalk | app/src/main/java/axml/xml/Chunk.java:597-615 | The same within a tag: its start-namespace chunks, start tag, children, end tag and end-namespace chunks |
| AxmlChunks.StartIsChunk | app/src/main/java/axml/xml/Chunk.java:333-352 | A start tag announces its own length; header size, attribute offset, attribute size and count in it point at exactly the attributes |
| AxmlChunks.PoolIsChunk | app/src/main/java/axml/xml/Chunk.java:481-496 | The pool announces its own length and has a header of 28 bytes that gives the number of strings, no styles, no flags and the place of the strings |
| AxmlChunks.NodesAndValues | app/src/main/java/axml/xml/Chunk.java:36-52 | No comment, the line of the element, or 1 for a namespace, and a typed value of eight bytes with a zero byte before its type |
| AxmlEncoder.MarksAreLast | app/src/main/java/axml/xml/Chunk.java:312-318 | The constructor's loop leaves the position of the last android:id, class and style attribute, and 0 without one |
| AxmlEncoder.LookupsSucceed | app/src/main/java/axml/xml/Chunk.java:555-567 | With every constructor's strings registered, all lookups of the writing phase succeed if and only if every namespace used is among the strings |
| AxmlWriter.XmlLangIsRefused | app/src/main/java/axml/xml/Chunk.java:555-567 | A document with xml:lang does not meet that condition |
| AxmlEncoder.DeclaredIsIn | app/src/main/java/axml/xml/Chunk.java:322-329 | A document whose namespaces are declared around their uses meets that condition |
| AxmlEncoder.Register | app/src/main/java/axml/xml/Chunk.java:293-330 | The tag constructors add exactly the names, attribute names, prefixes and uris, and every lookup registered stays possible |
| AxmlEncoder.Evaluate | app/src/main/java/axml/xml/Chunk.java:797-802 | The calc phase adds exactly the string values |
| AxmlPool.SortedById | app/src/main/java/axml/xml/Chunk.java:464-473 | Sorting puts the strings with ids first, by id |
| AxmlPool.MapCoversIds | app/src/main/java/axml/xml/Chunk.java:232-243 | Entry i of the resource map is the id of string i, and exactly the strings with an id have an entry |
| AxmlPool.ResourceIds | app/src/main/java/axml/xml/Chunk.java:232-241 | The loop collects the ids up to the first string without one |
| AxmlPool.StringPool.AddText | app/src/main/java/axml/xml/Chunk.java:533-540 | A text is added once |
| AxmlPool.StringPool.AddQualified | app/src/main/java/axml/xml/Chunk.java:542-553 | The first item of the text with this namespace or none takes the namespace, or else an item is added; no lookup is lost |
| AxmlPool.QualifiedNames | app/src/main/java/axml/xml/Chunk.java:542-553 | The items' names are those before and the one added |
| AxmlPool.StringPool.Freeze | app/src/main/java/axml/xml/Chunk.java:436-450 | The frozen pool is sorted, holds proper items only, and finds exactly what was registered, whatever order the hash map yields |
| AxmlPool.StringPool.StringIndex | app/src/main/java/axml/xml/Chunk.java:555-567 | -1 for the empty string, else the first item that answers; it throws if and only if there is none |
| AxmlStrings.StringReadsBack | app/src/main/java/axml/xml/Chunk.java:408-427 | A packed string reads back its first (length mod 65536) units, so it reads back unchanged if and only if it has at most 65535 |
| AxmlStrings.ShortsFormat | app/src/main/java/axml/xml/Chunk.java:408-427 | A raw string is its length, its units and one or two zeros, in whole ints |
| AxmlStrings.PoolReadsBack | app/src/main/java/axml/xml/Resources.java:251-284 | The decoder takes the pool chunk apart where the encoder put it |
| AxmlStrings.GetString | app/src/main/java/axml/xml/Resources.java:295-309 | getString through the packed-int accessor |
| AxmlStrings.ReadBlock | app/src/main/java/axml/xml/Resources.java:251-284 | StringBlock.read computes the specification's block, or fails exactly when that has none |
| AxmlIo.WordWritten | app/src/main/java/axml/xml/Chunk.java:912-925 | An int written to an aligned stream is the next int read |
| AxmlIo.ShortsAreInt | app/src/main/java/axml/xml/Chunk.java:897-906 | Two shorts written one after the other are one int, low half first |
| AxmlIo.IntWriter.WriteInt | app/src/main/java/axml/xml/Chunk.java:912-925 | Four bytes, lowest first, by shifting |
| AxmlIo.IntReader.ReadInt | app/src/main/java/axml/xml/Resources.java:161-191 | Gathers four bytes into the next int of the stream, or fails exactly at its end |
| AxmlIo.IntReader.ReadIntArray | app/src/main/java/axml/xml/Resources.java:193-203 | The next ints of the stream |
| NamespaceStacks.NamespaceStack.Push | app/src/main/java/axml/xml/Resources.java:1140-1153 | push appends a pair to the top frame, opening one if there is none |
| NamespaceStacks.NamespaceStack.PopPair | app/src/main/java/axml/xml/Resources.java:1155-1184 | pop(prefix, uri) removes the last equal pair of the top frame and says whether there was one; the copy it makes stays inside the array |
| NamespaceStacks.NamespaceStack.RemoveCells | app/src/main/java/axml/xml/Resources.java:1164-1181 | The two array moves of that removal, cell by cell |
| NamespaceStacks.NamespaceStack.PopTop | app/src/main/java/axml/xml/Resources.java:1186-1203 | pop() removes the last pair of the top frame, if any |
| NamespaceStacks.NamespaceStack.IncreaseDepth | app/src/main/java/axml/xml/Resources.java:1225-1232 | Opens an empty frame |
| NamespaceStacks.NamespaceStack.DecreaseDepth | app/src/main/java/axml/xml/Resources.java:1233-1245 | Closes the top frame, but never the bottom one |
| NamespaceStacks.NamespaceStack.EnsureDataCapacity | app/src/main/java/axml/xml/Resources.java:1247-1256 | Room for one more pair, with the cells in use kept |
| NamespaceStacks.NamespaceStack.Reset | app/src/main/java/axml/xml/Resources.java:1105-1109 | No frame |
| NamespaceStacks.NamespaceStack.GetCurrentCount | app/src/main/java/axml/xml/Resources.java:1115-1121 | The number of pairs in the top frame |
| NamespaceStacks.NamespaceStack.GetAccumulatedCount | app/src/main/java/axml/xml/Resources.java:1123-1138 | The number of pairs in the outermost frames, for any depth, negative or too large ones included |
| NamespaceStacks.NamespaceStack.Find | app/src/main/java/axml/xml/Resources.java:1258-1280 | The partner in the innermost pair that matches, or -1 |
| NamespaceStacks.NamespaceStack.Get | app/src/main/java/axml/xml/Resources.java:1282-1305 | One side of the pair at an index counted from the oldest, or -1 |
| NamespaceStacks.ScopeRestores | app/src/main/java/axml/xml/Resources.java:1225-1245 | Opening a frame, pushing any pairs and closing it restores the stack if and only if it had a frame |
| NamespaceStacks.PopUndoesPush | app/src/main/java/axml/xml/Resources.java:1140-1203 | Both pops undo a push |
| HashTable.PerformAll | app/src/main/cpp/lspc/Dobby/external/TINYSTL/unordered_map.h:172-275 | Any run of inserts, erases, finds and clears on the table is the same run on a finite map, with the same answer to every operation, for any hash function; the buckets stay a power of two in number with fewer than four nodes a slot on average |
| HashTable.AnswerAt | app/src/main/cpp/lspc/Dobby/external/TINYSTL/unordered_map.h:188-275 | The answer to each operation of a run is the value that its key had after the operations before it, or none |
| HashTable.InItsBucket | app/src/main/cpp/lspc/Dobby/external/TINYSTL/hash_base.h:160-190 | Every node lies between the slot of its hash modulo the number of buckets and the next slot |
| HashTable.MaskIsModulo | app/src/main/cpp/lspc/Dobby/external/TINYSTL/hash_base.h:161-161 | Among a power of two of buckets the mask is the remainder |
| HashTable.BitAndBits | app/src/main/cpp/lspc/Dobby/external/TINYSTL/hash_base.h:161-161 | The mask works bit by bit |
| HashTable.SpreadGrows | app/src/main/cpp/lspc/Dobby/external/TINYSTL/unordered_map.h:202-219 | The load rule keeps the number of buckets a power of two and the load below four |
| HashTable.NodeInsert | app/src/main/cpp/lspc/Dobby/external/TINYSTL/hash_base.h:159-190 | The node is linked at its place in the bucket order, and every slot again points at the first node of its bucket or a later one |
| HashTable.NodeErase | app/src/main/cpp/lspc/Dobby/external/TINYSTL/hash_base.h:192-207 | The node leaves list and slots, and the rest keeps its order |
| HashTable.NodeFind | app/src/main/cpp/lspc/Dobby/external/TINYSTL/hash_base.h:282-290 | The walk between two slots finds a node of the key if and only if the list has one |
| HashTable.Rebuild | app/src/main/cpp/lspc/Dobby/external/TINYSTL/unordered_map.h:212-217 | Relinking the nodes of the old list one by one into empty slots, the list being taken apart on the way, keeps exactly its nodes |
| HashTable.UnorderedMap.Insert | app/src/main/cpp/lspc/Dobby/external/TINYSTL/unordered_map.h:221-242 | An existing entry wins; else a fresh node is added, the size grows, and the slots are rebuilt exactly when the load says so |
| HashTable.UnorderedMap.Rehash | app/src/main/cpp/lspc/Dobby/external/TINYSTL/unordered_map.h:202-219 | Above four nodes a slot the slots become eight times as many; node set, values, contents and size stay |
| HashTable.UnorderedMap.ResetSlots | app/src/main/cpp/lspc/Dobby/external/TINYSTL/buffer.h:143-174 | The bucket buffer is resized in place if it has the capacity, else replaced by one of exactly the size; all slots are null |
| HashTable.UnorderedMap.Erase | app/src/main/cpp/lspc/Dobby/external/TINYSTL/unordered_map.h:268-275 | Exactly the iterator's node and key go |
| HashTable.UnorderedMap.Find | app/src/main/cpp/lspc/Dobby/external/TINYSTL/unordered_map.h:188-200 | A node with the key and its value, or null if and only if the key is absent |
| HashTable.UnorderedMap.Clear | app/src/main/cpp/lspc/Dobby/external/TINYSTL/unordered_map.h:172-186 | The walk frees every node of the list once, in its order; what is left is the empty map with nine slots |
| HashTable.UnorderedMap.constructor | app/src/main/cpp/lspc/Dobby/external/TINYSTL/unordered_map.h:83-89 | The empty map |
| HashTable.UnorderedMap.Copy | app/src/main/cpp/lspc/Dobby/external/TINYSTL/unordered_map.h:91-105 | An equal map made of fresh nodes |
| DebuggableGuard.GuardCorrect | app/src/main/cpp/lspc/lsp/lsplant.cc:309-359 | In every interleaving of any number of guards: count 0 means no holder, 1 means exactly one switching thread, otherwise it is holders + 1; debuggable while a guard is held, not when the count is 0 |
| DebuggableGuard.DestructorSees | app/src/main/cpp/lspc/lsp/lsplant.cc:332-352 | A destructor never finds 0 or 1 before its own decrement, so its wait is dead code |
| DebuggableGuard.NoDeadlock | app/src/main/cpp/lspc/lsp/lsplant.cc:309-359 | A waiting guard always waits for one that is switching modes and can move |
| DebuggableGuard.RunKeepsInv | app/src/main/cpp/lspc/lsp/lsplant.cc:309-359 | Every step of every schedule keeps the invariant |
| TrampolineAllocator.SlotsNeverOverlap | app/src/main/cpp/lspc/lsp/lsplant.cc:525-568 | In every interleaving of any number of calls no two slots overlap and each lies in one mapped page, if slots per page + callers * (failed maps + 2) is at most one more than the page size |
| TrampolineAllocator.NoSlotSkipped | app/src/main/cpp/lspc/lsp/lsplant.cc:530-559 | Under the same bound, every slot of the page in use with a number below the counter has been handed out |
| TrampolineAllocator.SlotsFineExactly | app/src/main/cpp/lspc/lsp/lsplant.cc:525-568 | The slots are so in every run of a non-empty set of callers if and only if that bound holds |
| TrampolineAllocator.BeyondDoomed | app/src/main/cpp/lspc/lsp/lsplant.cc:525-568 | Beyond the bound some run hands out a slot outside every mapped page, with any number of callers |
| TrampolineAllocator.ConfigsExist | app/src/main/cpp/lspc/lsp/lsplant.cc:522-527 | The bound is met by a hundred callers and thirty failed maps, with slots of 32 bytes in pages of both sizes |
| TrampolineAllocator.CounterStaysInPage | app/src/main/cpp/lspc/lsp/lsplant.cc:531-537 | Under that bound the counter never carries into the address |
| TrampolineAllocator.StepKeeps | app/src/main/cpp/lspc/lsp/lsplant.cc:530-559 | Every atomic step keeps the invariant while the counter stays in its page |
| TrampolineAllocator.CarryReachable | app/src/main/cpp/lspc/lsp/lsplant.cc:531-547 | Without a bound on failed maps the counter does carry, with a single caller: a slot is handed out although no page was mapped |
| HookTable.Engine.Run | app/src/main/cpp/lspc/lsp/lsplant.cc:690-816 | Over any run of Hook and UnHook with fresh hook and backup methods and targets that are no backups, the table stays a two-way pairing and every unhooked target has its memory from before its first hook, but for the flags: those are closed to the compiler, not precompiled and off the fast interpreter path, all other bits as before |
| HookTable.HookTwice | app/src/main/cpp/lspc/lsp/lsplant.cc:690-816 | Such a run: hooked, unhooked and hooked again with other methods, a target ends paired with the second backup |
| HookTable.Engine.Hook | app/src/main/cpp/lspc/lsp/lsplant.cc:712-779 | Refuses a hooked target and a missing trampoline, changing nothing; else the three method records, bit by bit for the flags, and all tables |
| HookTable.Engine.UnHook | app/src/main/cpp/lspc/lsp/lsplant.cc:787-815 | Succeeds exactly on a hooked target, and takes its pair and class entry with it |
| HookTable.Engine.DoHook | app/src/main/cpp/lspc/lsp/lsplant.cc:570-602 | The three method records afterwards, field by field; target, hook and backup have every compileDontBother bit that no cleared mask takes back and no preCompiled bit, the target no fast-interpreter bit, a non-static backup is private, and every bit outside these masks is the old one |
| HookTable.Engine.DoUnHook | app/src/main/cpp/lspc/lsp/lsplant.cc:604-616 | The backup's memory under the target's present flags |
| HookTable.Engine.IsHooked | app/src/main/cpp/lspc/lsp/common.hpp:130-136 | The default answer agrees with being a hooked target if and only if the method is not a backup; with including_backup it always does |
| HookTable.BackupAnswers | app/src/main/cpp/lspc/lsp/lsplant.cc:818-825 | After a single hook the default answer for the backup is its target |
| HookTable.Engine.RecordHooked | app/src/main/cpp/lspc/lsp/common.hpp:155-164 | Both tables learn of the pair |
| HookTable.RecordKeepsPairing | app/src/main/cpp/lspc/lsp/common.hpp:155-164 | Recording makes target and backup a pair of the pairing if and only if neither had an entry |
| HookTable.EraseKeepsPairing | app/src/main/cpp/lspc/lsp/lsplant.cc:790-802 | Unhooking removes exactly one pair |
| HookTable.HookKeepsInv | app/src/main/cpp/lspc/lsp/lsplant.cc:759-777 | A hook keeps the invariant over tables and method records |
| HookTable.UnHookKeepsInv | app/src/main/cpp/lspc/lsp/lsplant.cc:790-813 | So does an unhook |
| HookTable.UnhookedRestored | app/src/main/cpp/lspc/lsp/lsplant.cc:604-616 | The invariant gives the restoration |
| HookTable.HookedFlagsIdempotent | app/src/main/cpp/lspc/lsp/art/runtime/art_method.hpp:38-49 | Hooking again changes no further flag bit |
| HookTable.TargetFlagBits | app/src/main/cpp/lspc/lsp/art/runtime/art_method.hpp:38-49 | Bit by bit what hooking sets, clears and keeps in a target's flags, for any masks |
| HookTable.HookFlagBits | app/src/main/cpp/lspc/lsp/art/runtime/art_method.hpp:38-43 | The same for the hook method |
| HookTable.BackupFlagBits | app/src/main/cpp/lspc/lsp/lsplant.cc:583-591 | The same for the backup, private unless static |
| HookTable.ArtMethod.SetPrivate | app/src/main/cpp/lspc/lsp/art/runtime/art_method.hpp:51-57 | The three visibility bits become private, and every other bit stays |
| HookTable.ArtMethod.CopyFrom | app/src/main/cpp/lspc/lsp/art/runtime/art_method.hpp:89-89 | The whole record is overwritten |
| HookTable.ArtMethod.SetEntryPoint | app/src/main/cpp/lspc/lsp/art/runtime/art_method.hpp:91-99 | Entry point, and the interpreter's bridge where there is one |
| DexIndex.LazyIsFull | app/src/main/cpp/lspc/lsp/external/dex_builder/dex_helper.cc:168-268 | Once every matching method is scanned, the cached lists hold exactly the multiset that a full scan finds, whatever was scanned before |
| DexIndex.LazyWithinFull | app/src/main/cpp/lspc/lsp/external/dex_builder/dex_helper.cc:357-383 | At any time a cached answer is one that the full scan finds, and the converse holds for scanned methods |
| DexIndex.DexHelper.ScanMethod | app/src/main/cpp/lspc/lsp/external/dex_builder/dex_helper.cc:168-268 | A method is scanned at most once; afterwards its uses, in code order, are in the caches, the other methods' entries as before; it reports a string use in range exactly when this scan met one |
| DexIndex.DexHelper.CreateFullCache | app/src/main/cpp/lspc/lsp/external/dex_builder/dex_helper.cc:159-166 | Everything is scanned |
| DexIndex.DexHelper.FindMethodUsingString | app/src/main/cpp/lspc/lsp/external/dex_builder/dex_helper.cc:313-386 | After any history: with find_first false the multiset of the full scan; with find_first true one of its hits, and none only if it has none |
| DexIndex.DexHelper.FindMethodNaming | app/src/main/cpp/lspc/lsp/external/dex_builder/dex_helper.cc:424-608 | The same multiset for invoked methods and read or written fields; with find_first true at most one answer, a true one, and none if and only if every dex file searched has none or misses it as often as the priority list names it |
| DexIndex.DexHelper.FindMethodInvoking | app/src/main/cpp/lspc/lsp/external/dex_builder/dex_helper.cc:388-422 | The matching callees, in code order, or the first |
| DexIndex.DexHelper.Users | app/src/main/cpp/lspc/lsp/external/dex_builder/dex_helper.cc:442-482 | One dex file's part: with find_first true it is empty if and only if the full scan is, or a match is missed: the list had entries but none that matches, and the first matching method not yet scanned is not a user |
| DexIndex.SteadyMisses | app/src/main/cpp/lspc/lsp/external/dex_builder/dex_helper.cc:442-482 | The search after j that missed misses too if and only if, by the caches as they were before all of them, the first j + 1 searches miss |
| DexIndex.MissHappens | app/src/main/cpp/lspc/lsp/external/dex_builder/dex_helper.cc:456-482 | Such caches: of three methods the first is scanned, and the search for another reader of its field misses the third |
| DexIndex.DexHelper.StringUsers | app/src/main/cpp/lspc/lsp/external/dex_builder/dex_helper.cc:355-383 | One dex file's part of the string query |
| DexIndex.DexHelper.GetPriority | app/src/main/cpp/lspc/lsp/external/dex_builder/dex_helper.cc:863-877 | All dex files, or those of the list that exist |
| DexIndex.FullScansMean | app/src/main/cpp/lspc/lsp/external/dex_builder/dex_helper.cc:355-383 | What the full scan lists: exactly the methods of the dex files searched that match the filter and have an instruction of the kind naming something in the range |
| DexIndex.PointScansMean | app/src/main/cpp/lspc/lsp/external/dex_builder/dex_helper.cc:442-482 | The same for a single id |
| DexIndex.CallsMean | app/src/main/cpp/lspc/lsp/external/dex_builder/dex_helper.cc:388-422 | The callees listed are exactly the matching methods that the named method invokes |
| DexIndex.AllInOrder | app/src/main/cpp/lspc/lsp/external/dex_builder/dex_helper.cc:863-877 | Without a list every dex file is searched once, in order |
| DexIndex.ListInOrder | app/src/main/cpp/lspc/lsp/external/dex_builder/dex_helper.cc:863-877 | A list is searched as it stands, but for the numbers of no dex file |
| DexCode.CursorExact | app/src/main/cpp/lspc/lsp/external/dex_builder/dex_helper.cc:224-266 | The cursor stands at the start of item n after n steps, for every n, if and only if no array payload's size wraps the 32-bit product |
| DexCode.FileFits | app/src/main/cpp/lspc/lsp/external/dex_builder/include/slicer/dex_format.h:140-140 | No payload of a dex file, whose size in bytes is a 32-bit number, wraps it |
| DexCode.VisitsStarts | app/src/main/cpp/lspc/lsp/external/dex_builder/dex_helper.cc:224-266 | On the well-formed code of any dex file the cursor visits the instruction starts and nothing else, and ends |
| DexCode.CodeUses | app/src/main/cpp/lspc/lsp/external/dex_builder/dex_helper.cc:224-253 | On the well-formed code of any dex file the scan finds, item by item and in order, exactly the string, field or method that the instruction was built with, for every const-string, field access and invoke of the Dalvik format, and nothing in any other item |
| DexCode.LengthByFormat | app/src/main/cpp/lspc/lsp/external/dex_builder/include/slicer/reader.h:30-41 | The table of opcode lengths gives every opcode the number of units of its Dalvik instruction format |
| DexCode.RefIsItem | app/src/main/cpp/lspc/lsp/external/dex_builder/dex_helper.cc:170-187 | Every instruction that names something is well formed at the length of its opcode's format |
| DexCode.ItemAdvance | app/src/main/cpp/lspc/lsp/external/dex_builder/dex_helper.cc:233-262 | At an item of any kind the cursor moves by its length, or stops short inside a payload whose product wraps |
| CallbackChain.Callback | app/src/main/java/de/robv/android/xposed/CalvinBridge.java:356-429 | For any hooks, original and arguments: the order of calls and what the caller gets. What the first hook's after-hook sets last, without throwing, is the caller's exception or value, and otherwise what it found; a failed cast comes exactly of an uncastable result with no throwable. With passive hooks the caller gets the original's exception or value |
| CallbackChain.PrefixRuns | app/src/main/java/de/robv/android/xposed/CalvinBridge.java:379-397 | Before-hooks run on a prefix of the snapshot, each finding nothing pending; it ends at the first early return or with the last hook |
| CallbackChain.RunBefores | app/src/main/java/de/robv/android/xposed/CalvinBridge.java:378-397 | The first loop, do-while and continue as in the source |
| CallbackChain.RunAfters | app/src/main/java/de/robv/android/xposed/CalvinBridge.java:407-424 | The second loop: after-hooks of exactly that prefix, in reverse |
| CallbackChain.EventsInOrder | app/src/main/java/de/robv/android/xposed/CalvinBridge.java:378-424 | The calls made: before-hooks upwards from the first, after-hooks downwards to it |
| CallbackChain.ThrowingBeforeIsIdle | app/src/main/java/de/robv/android/xposed/CalvinBridge.java:382-388 | A throwing before-hook leaves nothing pending |
| CallbackChain.ThrowingAfterKeepsOutcome | app/src/main/java/de/robv/android/xposed/CalvinBridge.java:408-423 | A throwing after-hook leaves the outcome as it was before it |
| CallbackChain.AftersProper | app/src/main/java/de/robv/android/xposed/CalvinBridge.java:407-424 | A throwable always excludes a result |
| CallbackChain.FirstHookDecides | app/src/main/java/de/robv/android/xposed/CalvinBridge.java:407-429 | The hook of highest priority has the last word on the outcome |
| CallbackChain.PassiveHooksAreInvisible | app/src/main/java/de/robv/android/xposed/CalvinBridge.java:356-429 | Hooks that set nothing, throwing or not, leave the param as the original's own outcome made it |
| CallbackChain.MethodHookParam.SetResult | app/src/main/java/de/robv/android/xposed/CA_MethodHook.java:106-110 | The result replaces a throwable and asks for an early return |
| CallbackChain.MethodHookParam.SetThrowable | app/src/main/java/de/robv/android/xposed/CA_MethodHook.java:127-131 | And the other way round |
| HookRegistry.CompareIsOrder | app/src/main/java/de/robv/android/xposed/callbacks/XCallback.java:58-70 | compareTo is antisymmetric and puts the higher priority first on exactly those sets where hash codes tell equal priorities apart and no difference overflows; it is transitive there |
| HookRegistry.OverflowMisorders | app/src/main/java/de/robv/android/xposed/callbacks/XCallback.java:62-64 | Priorities -2 and 2147483647: the low one counts as sorted before the high one |
| HookRegistry.CopyOnWriteSortedSet.Add | app/src/main/java/de/robv/android/xposed/CalvinBridge.java:295-307 | Adds an absent element in a new array, in order if compareTo is one; snapshots stay as they are |
| HookRegistry.CopyOnWriteSortedSet.Remove | app/src/main/java/de/robv/android/xposed/CalvinBridge.java:309-320 | Takes an element out in a new array and keeps the order; snapshots stay as they are |
| HookRegistry.CopyOnWriteSortedSet.IndexOf | app/src/main/java/de/robv/android/xposed/CalvinBridge.java:322-328 | A position of the element, or -1 if and only if there is none |
| HookRegistry.Bridge.HookMethod | app/src/main/java/de/robv/android/xposed/CalvinBridge.java:125-144 | The callback joins the method's set; a first callback hooks it natively, or throws and changes nothing; a later one keeps the record and its backup |
| HookRegistry.Bridge.UnhookMethod | app/src/main/java/de/robv/android/xposed/CalvinBridge.java:190-201 | The callback leaves, and the last one takes record and native hook with it; until then the record stays as it is |
| HookRaces.RegisteredExactly | app/src/main/java/de/robv/android/xposed/CalvinBridge.java:125-144 | In every interleaving with unhookMethod, the callbacks added and not removed since are all registered at every moment if and only if no add goes to a dropped record and no record is dropped that has got a callback again |
| HookRaces.StepKeeps | app/src/main/java/de/robv/android/xposed/CalvinBridge.java:190-201 | In every interleaving a removed callback is not registered |
| HookRaces.ApartLosesNothing | app/src/main/java/de/robv/android/xposed/CalvinBridge.java:125-201 | No callback is lost if no unhookMethod starts while a hookMethod of the same method is between its lock and its add |
| HookRaces.EveryRun | app/src/main/java/de/robv/android/xposed/CalvinBridge.java:125-201 | Both for every run from the empty registry |
| HookRaces.LostToDroppedRecord | app/src/main/java/de/robv/android/xposed/CalvinBridge.java:141-141 | A callback added to a record that has just been dropped |
| HookRaces.LostToDrop | app/src/main/java/de/robv/android/xposed/CalvinBridge.java:195-198 | A callback added between the look at the size and the drop |
| HookRegistry.SortSorts | app/src/main/java/de/robv/android/xposed/CalvinBridge.java:304-304 | Where compareTo is an order, sorting gives the one strictly ordered arrangement |
| MemoryArenas.MemoryAllocator.BlocksDisjoint | app/src/main/cpp/lspc/Dobby/source/MemoryAllocator/MemoryAllocator.cc:5-14 | As long as no request has overrun its gap, any two executable blocks ever handed out are disjoint |
| MemoryArenas.MemoryAllocator.AllocateExecBlock | app/src/main/cpp/lspc/Dobby/source/MemoryAllocator/MemoryAllocator.cc:35-53 | First fit, after any requests: the first arena with room, else a new one of whole pages; as long as no request has overrun, the block overlaps none returned before |
| MemoryArenas.MemoryAllocator.AllocateNearFromArenas | app/src/main/cpp/lspc/Dobby/source/MemoryAllocator/NearMemoryAllocator.cc:48-108 | After any requests: the block within range where the first arena with room in range has it, or none if there is no such arena; as long as no request has overrun, it overlaps none returned before |
| MemoryArenas.MemoryAllocator.AllocateNearFromUnusedRegion | app/src/main/cpp/lspc/Dobby/source/MemoryAllocator/NearMemoryAllocator.cc:110-189 | A block within range in a new arena in the first gap with room; the arena takes exactly one page of the next mapping if the request, by its position, range and size, ends the block there, and none otherwise |
| MemoryArenas.MemoryAllocator.AllocateNearBlock | app/src/main/cpp/lspc/Dobby/source/MemoryAllocator/NearMemoryAllocator.cc:191-202 | The two in turn, after any requests; as long as none has overrun, no two blocks ever returned overlap, and the arenas stay apart unless this one overruns, for which the contract says where the new arena ends |
| MemoryArenas.OverrunHappens | app/src/main/cpp/lspc/Dobby/source/MemoryAllocator/NearMemoryAllocator.cc:157-159 | A request of that kind, for the last twenty bytes of a gap |
| MemoryArenas.OverrunOverlaps | app/src/main/cpp/lspc/Dobby/source/MemoryAllocator/NearMemoryAllocator.cc:48-108 | If the mapping behind the gap is an arena, the request after that one is answered with memory handed out before |
| MemoryArenas.MemoryArena.AllocMemBlock | app/src/main/cpp/lspc/Dobby/source/MemoryAllocator/MemoryAllocator.cc:5-14 | Bumps the cursor, or refuses exactly when there is no room |
| MemoryArenas.GapFacts | app/src/main/cpp/lspc/Dobby/source/MemoryAllocator/NearMemoryAllocator.cc:157-159 | The pages computed for a block cover it and stay in the gap, unless the block ends at the gap's end: then they take a page of the next mapping |
| MemoryArenas.Rel32Fits | app/src/main/cpp/lspc/Dobby/source/InstructionRelocation/x86/InstructionRelocationX86Shared.cc:91-112 | A block within 2 GiB of the operand keeps the displacement within 32 bits |

## Left out

- IntWriter: `pos` is a natural number; sizes beyond a Java int end in the outcome `TooLarge` instead of wrapping.
- AllocateNearFromUnusedRegion: the arenas need not stay apart, nor later blocks be disjoint from earlier ones, once a request has overrun its gap, because there they do not; `NewArena` and `OverrunOverlaps` say what happens instead.
- UnorderedMap: move construction, `swap`, `emplace` and `operator[]` repeat what is modelled. Freed nodes are listed, not reused.
- ARM64: x17 in the prologue's own compare, test and indirect branches, branches to the inside of the patched range, literal loads from the patched bytes and SIMD literals are outside the theorem, as preconditions in terms of the run. An unmodelled instruction must not depend on x17 and must not overwrite the relocated block; other loads that read the patched bytes see them patched on both sides. Buffers reach 2^20 bytes, the range of a literal load.
- ARM64: `relo_ctx_t`, logging, the disabled label code and FinalizeFromTurboAssembler, which copies the finished block.
- Two-byte x64 opcodes 0F 71 to 0F 73 and `jcc rel32` are outside the simulation and have theorems of their own; the decoder aborts on 0F 70 and 0F 74 to 0F 7F, and the relocator on the loop instructions. The simulation covers the instructions for which the decoder's report and the processor agree.
- The x64 instruction decoder is a parameter: `x86_insn_decode` itself is not part of this model. The code emitted after a null answer of the near allocator is modelled, what it then does is not; neither is code that overwrites itself.
- 32-bit ARM, Thumb and IA32 relocation: platform variants of the same scheme.
- AXML: the UTF-8 pool and styles, the getters that look up the attribute at the reported id, class or style position, explicit `!type!` values, and the regular expressions of `evaluate`: every attribute comes with the type and data that `evaluate` chose. Default-namespace declarations (null prefix), on which the encoder throws, and more than 32767 attributes of one element, where its short counter never ends the loop.
- NamespaceStack: 32-bit overflow of the array length.
- LSPlant: JNI, the generated class, `kInternalMethods`, `deoptimized_classes_`, and races between Hook, UnHook and the shared maps; runs are sequences of whole calls. Weak memory ordering: atomic steps are sequentially consistent.
- DexHelper: `IsMethodMatch` is an arbitrary filter, string lookup and prefix search give the ranges and ids, and results are dex and method ids; index creation by name only adds lookups.
- CalvinBridge: reflection and resource hooks; a failing `hook0` leaves everything as it was and is no step in `HookRaces`. Where `compareTo` is no order, the library sort gives some arrangement; that it may also throw on 32 or more callbacks is left out.
- Memory: data arenas, a failing map of a default arena, permission changes, and ranges below the start of the address space.
- Android glue, services, symbol lookup, ELF and xz: foreign calls or thin wrappers.
