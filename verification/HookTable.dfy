/** Hook and UnHook: what they do to the method records and to hooked_methods_. */
module HookTable {

  const ACC_PUBLIC: bv32 := 0x0001
  const ACC_PRIVATE: bv32 := 0x0002
  const ACC_PROTECTED: bv32 := 0x0004
  const ACC_STATIC: bv32 := 0x0008

  /** The version-dependent flags and the optional interpreter entry point. */
  datatype Config = Config(compileDontBother: bv32, preCompiled: bv32, fastInterpreter: bv32,
                           hasInterpreterEntry: bool, interpreterBridge: nat)

  /** The memory of an ArtMethod: the fields that the code touches, and the rest of it. */
  datatype Record = Record(flags: bv32, entryPoint: nat, interpreterEntryPoint: nat,
                           declaringClass: nat, rest: seq<nat>)

  /** The three bits that say who may call a method. */
  const VISIBILITY: bv32 := 7

  function NonCompilable(cfg: Config, flags: bv32): bv32 { (flags | cfg.compileDontBother) & !cfg.preCompiled }
  function NoFastInterpret(cfg: Config, flags: bv32): bv32 { flags & !cfg.fastInterpreter }
  function Private(flags: bv32): bv32 { ((flags | ACC_PRIVATE) & !ACC_PROTECTED) & !ACC_PUBLIC }

  /** The flags that hooking leaves on a target. */
  function HookedFlags(cfg: Config, flags: bv32): bv32 { NoFastInterpret(cfg, NonCompilable(cfg, flags)) }

  predicate AllOn(flags: bv32, mask: bv32) { flags & mask == mask }
  predicate AllOff(flags: bv32, mask: bv32) { flags & mask == 0 }
  predicate SameElsewhere(before: bv32, after: bv32, mask: bv32) { after & !mask == before & !mask }

  /** Bit by bit, for any masks: everything in `off` is clear, everything else in `on` is set, and every
      other bit is the old one. */
  ghost predicate Turned(before: bv32, after: bv32, on: bv32, off: bv32) {
    AllOff(after, off) && AllOn(after, on & !off) && SameElsewhere(before, after, on | off)
  }

  /** A hooked target is closed to the compiler, not precompiled, and not entered from the
      interpreter's fast path. */
  ghost predicate TargetBits(cfg: Config, before: bv32, after: bv32) {
    Turned(before, after, cfg.compileDontBother, cfg.preCompiled | cfg.fastInterpreter)
  }

  ghost predicate HookBits(cfg: Config, before: bv32, after: bv32) {
    Turned(before, after, cfg.compileDontBother, cfg.preCompiled)
  }

  /** A backup is closed to the compiler and not precompiled, and private unless it is static. */
  ghost predicate BackupTurned(before: bv32, after: bv32, c: bv32, p: bv32) {
    if before & ACC_STATIC != 0 then Turned(before, after, c, p)
    else Turned(before, after, c | ACC_PRIVATE, p | (ACC_PUBLIC | ACC_PROTECTED))
  }

  ghost predicate BackupBits(cfg: Config, before: bv32, after: bv32) {
    BackupTurned(before, after, cfg.compileDontBother, cfg.preCompiled)
  }

  /** The masks leave the lowest four bits alone, as they do on every version. */
  predicate HighMasks(cfg: Config) { (cfg.compileDontBother | cfg.preCompiled | cfg.fastInterpreter) & 0xF == 0 }

  // the solver is fast on one bit pattern of plain variables at a time

  lemma OffBits(f: bv32, on: bv32, off: bv32)
    ensures AllOff((f | on) & !off, off)
  {
  }

  lemma OnBits(f: bv32, on: bv32, off: bv32)
    ensures AllOn((f | on) & !off, on & !off)
  {
  }

  lemma OtherBits(f: bv32, on: bv32, off: bv32)
    ensures SameElsewhere(f, (f | on) & !off, on | off)
  {
  }

  lemma SetAndCleared(f: bv32, on: bv32, off: bv32)
    ensures Turned(f, (f | on) & !off, on, off)
  {
    hide AllOn, AllOff, SameElsewhere;
    OffBits(f, on, off);
    OnBits(f, on, off);
    OtherBits(f, on, off);
  }

  lemma ClearedTwice(f: bv32, on: bv32, p: bv32, i: bv32)
    ensures ((f | on) & !p) & !i == (f | on) & !(p | i)
  {
  }

  lemma ClearedInTurn(f: bv32, x: bv32, on: bv32, p: bv32, i: bv32)
    requires x == ((f | on) & !p) & !i
    ensures Turned(f, x, on, p | i)
  {
    hide *;
    ClearedTwice(f, on, p, i);
    SetAndCleared(f, on, p | i);
  }

  lemma HookFlagBits(cfg: Config, flags: bv32)
    ensures HookBits(cfg, flags, NonCompilable(cfg, flags))
  {
    hide Turned;
    SetAndCleared(flags, cfg.compileDontBother, cfg.preCompiled);
  }

  lemma TargetFlags(cfg: Config, flags: bv32, x: bv32)
    requires x == HookedFlags(cfg, flags)
    ensures TargetBits(cfg, flags, x)
  {
    hide Turned;
    ClearedInTurn(flags, x, cfg.compileDontBother, cfg.preCompiled, cfg.fastInterpreter);
  }

  lemma TargetFlagBits(cfg: Config, flags: bv32)
    ensures TargetBits(cfg, flags, HookedFlags(cfg, flags))
  {
    hide *;
    TargetFlags(cfg, flags, HookedFlags(cfg, flags));
  }

  lemma PrivateLater(f: bv32, c: bv32, p: bv32)
    requires (c | p) & 0xF == 0
    ensures ((((f | c) & !p) | 2) & !4) & !1 == (f | (c | 2)) & !(p | (1 | 4))
  {
  }

  lemma StaticStays(f: bv32, c: bv32, p: bv32)
    requires (c | p) & 0xF == 0
    ensures ((f | c) & !p) & 8 == f & 8
  {
  }

  lemma LowBitsApart(c: bv32, p: bv32, i: bv32)
    requires (c | p | i) & 0xF == 0
    ensures (c | p) & 0xF == 0
  {
  }

  lemma PrivateFlags(f: bv32, c: bv32, p: bv32, n: bv32, x: bv32)
    requires (c | p) & 0xF == 0 && n == (f | c) & !p && x == Private(n)
    ensures Turned(f, x, c | ACC_PRIVATE, p | (ACC_PUBLIC | ACC_PROTECTED))
  {
    hide Turned;
    PrivateLater(f, c, p);
    SetAndCleared(f, c | ACC_PRIVATE, p | (ACC_PUBLIC | ACC_PROTECTED));
  }

  lemma BackupStatic(f: bv32, c: bv32, p: bv32, x: bv32)
    requires (c | p) & 0xF == 0 && x == (f | c) & !p
    ensures x & ACC_STATIC != 0 <==> f & ACC_STATIC != 0
  {
    StaticStays(f, c, p);
  }

  lemma BackupCases(f: bv32, c: bv32, p: bv32, n: bv32, x: bv32)
    requires (c | p) & 0xF == 0 && n == (f | c) & !p
    requires x == if n & ACC_STATIC != 0 then n else Private(n)
    ensures BackupTurned(f, x, c, p)
  {
    hide Turned, Private;
    BackupStatic(f, c, p, n);
    if n & ACC_STATIC != 0 {
      SetAndCleared(f, c, p);
    } else {
      PrivateFlags(f, c, p, n, x);
    }
  }

  lemma BackupParts(cfg: Config, flags: bv32, n: bv32, x: bv32)
    requires n == NonCompilable(cfg, flags) && x == if n & ACC_STATIC != 0 then n else Private(n)
    requires (cfg.compileDontBother | cfg.preCompiled) & 0xF == 0
    ensures BackupBits(cfg, flags, x)
  {
    hide BackupTurned, Private;
    BackupCases(flags, cfg.compileDontBother, cfg.preCompiled, n, x);
  }

  lemma BackupFlagBits(cfg: Config, flags: bv32)
    requires HighMasks(cfg)
    ensures BackupBits(cfg, flags, BackupFlags(cfg, flags))
  {
    hide BackupBits, NonCompilable, Private;
    LowBitsApart(cfg.compileDontBother, cfg.preCompiled, cfg.fastInterpreter);
    BackupParts(cfg, flags, NonCompilable(cfg, flags), BackupFlags(cfg, flags));
  }

  /** SetPrivate turns the visibility into private and leaves every other bit alone. */
  lemma PrivateBits(flags: bv32)
    ensures Private(flags) & !VISIBILITY == flags & !VISIBILITY && Private(flags) & VISIBILITY == ACC_PRIVATE
  {
  }

  lemma MasksIdempotent(f: bv32, c: bv32, p: bv32, i: bv32)
    ensures ((((((f | c) & !p) & !i) | c) & !p) & !i) == (((f | c) & !p) & !i)
  {
  }

  /** Hooking a target again after it was unhooked leaves the flags as they were. */
  lemma HookedFlagsIdempotent(cfg: Config, flags: bv32)
    ensures HookedFlags(cfg, HookedFlags(cfg, flags)) == HookedFlags(cfg, flags)
  {
    MasksIdempotent(flags, cfg.compileDontBother, cfg.preCompiled, cfg.fastInterpreter);
  }

  class ArtMethod {
    var mem: Record

    constructor (mem: Record)
      ensures this.mem == mem
    {
      this.mem := mem;
    }

    method SetNonCompilable(cfg: Config)
      modifies this
      ensures mem == old(mem).(flags := NonCompilable(cfg, old(mem).flags))
    {
      var accessFlags := mem.flags;
      accessFlags := accessFlags | cfg.compileDontBother;
      accessFlags := accessFlags & !cfg.preCompiled;
      mem := mem.(flags := accessFlags);
    }

    method ClearFastInterpretFlag(cfg: Config)
      modifies this
      ensures mem == old(mem).(flags := NoFastInterpret(cfg, old(mem).flags))
    {
      mem := mem.(flags := mem.flags & !cfg.fastInterpreter);
    }

    method SetPrivate()
      modifies this
      ensures mem == old(mem).(flags := Private(old(mem).flags))
      ensures mem.flags & !VISIBILITY == old(mem.flags) & !VISIBILITY && mem.flags & VISIBILITY == ACC_PRIVATE
    {
      var accessFlags := mem.flags;
      accessFlags := accessFlags | ACC_PRIVATE;
      accessFlags := accessFlags & !ACC_PROTECTED;
      accessFlags := accessFlags & !ACC_PUBLIC;
      assert accessFlags == Private(mem.flags);
      hide *;
      PrivateBits(mem.flags);
      mem := mem.(flags := accessFlags);
    }

    predicate IsStatic()
      reads this
    {
      mem.flags & ACC_STATIC != 0
    }

    method CopyFrom(other: ArtMethod)
      modifies this
      ensures mem == old(other.mem)
    {
      mem := other.mem;
    }

    method SetEntryPoint(cfg: Config, entry: nat)
      modifies this
      ensures mem == old(mem).(entryPoint := entry,
        interpreterEntryPoint := if cfg.hasInterpreterEntry then cfg.interpreterBridge else old(mem).interpreterEntryPoint)
    {
      mem := mem.(entryPoint := entry);
      if cfg.hasInterpreterEntry {
        mem := mem.(interpreterEntryPoint := cfg.interpreterBridge);
      }
    }
  }

  datatype Option<+T> = None | Some(value: T)

  /** The pair in hooked_methods_: a null reflected backup marks a backup's own entry. */
  datatype Entry = Entry(reflected: Option<nat>, other: ArtMethod)

  /** The entries of m and of its partner point at each other, one as target, one as backup. */
  ghost predicate PairedAt(hooked: map<ArtMethod, Entry>, m: ArtMethod)
    requires m in hooked
  {
    var o := hooked[m].other;
    o in hooked && hooked[o].other == m && (hooked[m].reflected.Some? <==> hooked[o].reflected.None?)
  }

  /** The table is a two-way pairing of targets and backups. */
  ghost predicate Paired(hooked: map<ArtMethod, Entry>) {
    forall m :: m in hooked ==> PairedAt(hooked, m)
  }

  /** insert does not replace an entry that is already there. */
  function InsertNew<K, V>(m: map<K, V>, k: K, v: V): map<K, V> { if k in m then m else m[k := v] }

  function Recorded(hooked: map<ArtMethod, Entry>, target: ArtMethod, reflected: nat, backup: ArtMethod): map<ArtMethod, Entry> {
    InsertNew(InsertNew(hooked, target, Entry(Some(reflected), backup)), backup, Entry(None, target))
  }

  /** Recording a hook makes target and backup a new pair of the pairing exactly when neither
      had an entry, that is, the target is not itself a backup and the backup is fresh. */
  lemma {:induction false} RecordKeepsPairing(hooked: map<ArtMethod, Entry>, target: ArtMethod, reflected: nat, backup: ArtMethod)
    requires Paired(hooked)
    requires target in hooked ==> hooked[target].reflected.None?
    ensures var after := Recorded(hooked, target, reflected, backup);
      (Paired(after) && after[target] == Entry(Some(reflected), backup))
      <==> (target !in hooked && backup !in hooked && target != backup)
  {
    var after := Recorded(hooked, target, reflected, backup);
    if target !in hooked {
      assert after[target] == Entry(Some(reflected), backup);
      if backup in hooked {
        assert PairedAt(hooked, backup);
        assert !PairedAt(after, target);
      } else if target == backup {
        assert !PairedAt(after, target);
      } else {
        forall m | m in after ensures PairedAt(after, m) {
          if m != target && m != backup {
            assert PairedAt(hooked, m);
          }
        }
      }
    }
  }

  /** Unhooking a target removes exactly its pair. */
  lemma {:induction false} EraseKeepsPairing(hooked: map<ArtMethod, Entry>, target: ArtMethod)
    requires Paired(hooked) && target in hooked
    ensures Paired(hooked - {target, hooked[target].other})
  {
    var after := hooked - {target, hooked[target].other};
    assert PairedAt(hooked, target);
    forall m | m in after ensures PairedAt(after, m) {
      assert PairedAt(hooked, m);
      assert PairedAt(hooked, hooked[target].other);
    }
  }

  // ----- the hooking engine -----

  /** Equal in every field but the access flags. */
  ghost predicate SameButFlags(a: Record, b: Record) { a == b.(flags := a.flags) }

  /** The target's memory with the new entry point, and with the bridge where there is a second one. */
  function Redirected(cfg: Config, mem: Record, entry: nat): Record {
    Record(mem.flags, entry, if cfg.hasInterpreterEntry then cfg.interpreterBridge else mem.interpreterEntryPoint,
           mem.declaringClass, mem.rest)
  }

  function BackupFlags(cfg: Config, flags: bv32): bv32 {
    var f := NonCompilable(cfg, flags);
    if f & ACC_STATIC != 0 then f else Private(f)
  }

  function ClassMembers(classes: map<nat, set<ArtMethod>>, c: nat): set<ArtMethod> {
    if c in classes then classes[c] else {}
  }

  /** hooked_methods_, hooked_classes_, and the memory of each target when it was first hooked. */
  datatype Tables = Tables(hooked: map<ArtMethod, Entry>, classes: map<nat, set<ArtMethod>>,
                           ghost original: map<ArtMethod, Record>)

  predicate IsTarget(hooked: map<ArtMethod, Entry>, m: ArtMethod) { m in hooked && hooked[m].reflected.Some? }

  /** m has the entry that a hook makes for its backup. */
  predicate IsBackup(hooked: map<ArtMethod, Entry>, m: ArtMethod) { m in hooked && hooked[m].reflected.None? }

  /** A hooked target differs from its original in flags and entry points only, and its backup
      in flags only; a target that is no longer hooked differs in flags only. */
  ghost predicate TargetOk(cfg: Config, t: Tables, mems: map<ArtMethod, Record>, m: ArtMethod)
    requires m in t.original && m in mems
    requires m in t.hooked ==> t.hooked[m].other in mems
  {
    && mems[m].flags == HookedFlags(cfg, t.original[m].flags)
    && mems[m].declaringClass == t.original[m].declaringClass && mems[m].rest == t.original[m].rest
    && (m !in t.hooked ==> SameButFlags(mems[m], t.original[m]))
    && (m in t.hooked ==> IsTarget(t.hooked, m) && SameButFlags(mems[t.hooked[m].other], t.original[m]))
  }

  /** hooked_classes_ lists exactly the hooked targets, class by class, with no empty class. */
  ghost predicate ClassesOk(t: Tables, mems: map<ArtMethod, Record>)
    requires t.hooked.Keys <= mems.Keys
  {
    && (forall c :: c in t.classes ==> t.classes[c] != {})
    && (forall c, m :: c in t.classes && m in t.classes[c] ==> IsTarget(t.hooked, m) && mems[m].declaringClass == c)
    && (forall m :: m in t.hooked && IsTarget(t.hooked, m) ==> m in ClassMembers(t.classes, mems[m].declaringClass))
  }

  ghost predicate Inv(cfg: Config, t: Tables, mems: map<ArtMethod, Record>) {
    && t.hooked.Keys <= mems.Keys && t.original.Keys <= mems.Keys
    && Paired(t.hooked)
    && (forall m :: m in t.hooked ==> t.hooked[m].other in mems)
    && (forall m :: m in t.hooked && IsTarget(t.hooked, m) ==> m in t.original)
    && (forall m :: m in t.original ==> TargetOk(cfg, t, mems, m))
    && ClassesOk(t, mems)
  }

  function HookTables(t: Tables, target: ArtMethod, reflected: nat, backup: ArtMethod, mem: Record): Tables {
    Tables(Recorded(t.hooked, target, reflected, backup),
           t.classes[mem.declaringClass := ClassMembers(t.classes, mem.declaringClass) + {target}],
           InsertNew(t.original, target, mem))
  }

  lemma {:induction false} HookKeepsClasses(t: Tables, mems: map<ArtMethod, Record>,
      target: ArtMethod, reflected: nat, backup: ArtMethod, mem: Record, t': Tables, mems': map<ArtMethod, Record>)
    requires t.hooked.Keys <= mems.Keys && ClassesOk(t, mems)
    requires target !in t.hooked && backup !in t.hooked && target != backup
    requires t'.hooked == t.hooked[target := Entry(Some(reflected), backup)][backup := Entry(None, target)]
    requires t'.classes == t.classes[mem.declaringClass := ClassMembers(t.classes, mem.declaringClass) + {target}]
    requires mems.Keys <= mems'.Keys && target in mems' && backup in mems'
    requires forall m :: m in mems && m != target && m != backup ==> mems'[m] == mems[m]
    requires mems'[target].declaringClass == mem.declaringClass
    ensures ClassesOk(t', mems')
  {
    var d := mem.declaringClass;
    forall c, m | c in t'.classes && m in t'.classes[c]
      ensures IsTarget(t'.hooked, m) && mems'[m].declaringClass == c
    {
      if m != target || c != d {
        assert c in t.classes && m in t.classes[c];
        assert IsTarget(t.hooked, m);
      }
    }
    forall m | m in t'.hooked && IsTarget(t'.hooked, m)
      ensures m in ClassMembers(t'.classes, mems'[m].declaringClass)
    {
      if m != target {
        assert IsTarget(t.hooked, m) && m in ClassMembers(t.classes, mems[m].declaringClass);
      }
    }
  }

  lemma {:induction false} HookKeepsTarget(cfg: Config, t: Tables, mems: map<ArtMethod, Record>,
      target: ArtMethod, reflected: nat, backup: ArtMethod, mem: Record, t': Tables, mems': map<ArtMethod, Record>, m: ArtMethod)
    requires Inv(cfg, t, mems)
    requires target !in t.hooked && backup !in t.hooked && backup !in t.original && target != backup
    requires (target in mems ==> mems[target] == mem) && t' == HookTables(t, target, reflected, backup, mem)
    requires mems.Keys <= mems'.Keys && target in mems' && backup in mems'
    requires forall m :: m in mems && m != target && m != backup ==> mems'[m] == mems[m]
    requires mems'[target].flags == HookedFlags(cfg, mem.flags)
    requires mems'[target].declaringClass == mem.declaringClass && mems'[target].rest == mem.rest
    requires SameButFlags(mems'[backup], mem)
    requires m in t'.original
    ensures TargetOk(cfg, t', mems', m)
  {
    hide ClassesOk, HookedFlags;
    if m == target {
      if target in t.original {
        assert TargetOk(cfg, t, mems, target);
        HookedFlagsIdempotent(cfg, t.original[target].flags);
      }
    } else {
      assert TargetOk(cfg, t, mems, m);
      if m in t.hooked {
        assert PairedAt(t.hooked, m);
      }
    }
  }

  /** Hooking a target that is no backup, with fresh methods, keeps the invariant. */
  lemma {:induction false} HookKeepsInv(cfg: Config, t: Tables, mems: map<ArtMethod, Record>,
      target: ArtMethod, reflected: nat, backup: ArtMethod, mem: Record, t': Tables, mems': map<ArtMethod, Record>)
    requires Inv(cfg, t, mems)
    requires target !in t.hooked && backup !in t.hooked && backup !in t.original && target != backup
    requires (target in mems ==> mems[target] == mem) && t' == HookTables(t, target, reflected, backup, mem)
    requires mems.Keys <= mems'.Keys && target in mems' && backup in mems'
    requires forall m :: m in mems && m != target && m != backup ==> mems'[m] == mems[m]
    requires mems'[target].flags == HookedFlags(cfg, mem.flags)
    requires mems'[target].declaringClass == mem.declaringClass && mems'[target].rest == mem.rest
    requires SameButFlags(mems'[backup], mem)
    ensures Inv(cfg, t', mems')
  {
    hide TargetOk, ClassesOk, HookedFlags, Paired, SameButFlags;
    RecordKeepsPairing(t.hooked, target, reflected, backup);
    assert t'.hooked == t.hooked[target := Entry(Some(reflected), backup)][backup := Entry(None, target)];
    assert t'.original.Keys == t.original.Keys + {target};
    hide Recorded, InsertNew;
    HookKeepsClasses(t, mems, target, reflected, backup, mem, t', mems');
    forall m | m in t'.hooked ensures t'.hooked[m].other in mems' && (IsTarget(t'.hooked, m) ==> m in t'.original) {
      assert m != target && m != backup ==> t'.hooked[m] == t.hooked[m];
    }
    forall m | m in t'.original ensures TargetOk(cfg, t', mems', m) {
      HookKeepsTarget(cfg, t, mems, target, reflected, backup, mem, t', mems', m);
    }
  }

  lemma {:induction false} EraseTwice<K, V>(m: map<K, V>, a: K, b: K)
    ensures m - {a} - {b} == m - {a, b}
  {
  }

  function UnHookClasses(classes: map<nat, set<ArtMethod>>, c: nat, target: ArtMethod): map<nat, set<ArtMethod>> {
    if c !in classes then classes
    else if classes[c] - {target} == {} then classes - {c}
    else classes[c := classes[c] - {target}]
  }

  lemma {:induction false} UnHookKeepsTarget(cfg: Config, t: Tables, mems: map<ArtMethod, Record>,
      target: ArtMethod, t': Tables, mems': map<ArtMethod, Record>, m: ArtMethod)
    requires Inv(cfg, t, mems) && IsTarget(t.hooked, target)
    requires t'.hooked == t.hooked - {target, t.hooked[target].other} && t'.original == t.original
    requires t'.classes == UnHookClasses(t.classes, mems[target].declaringClass, target)
    requires t.original.Keys <= mems'.Keys <= mems.Keys && t'.hooked.Keys <= mems'.Keys
    requires forall m :: m in mems' && m != target ==> mems'[m] == mems[m]
    requires mems'[target] == mems[t.hooked[target].other].(flags := mems[target].flags)
    requires m in t'.original
    ensures t'.hooked.Keys <= mems'.Keys && (m in t'.hooked ==> t'.hooked[m].other in mems') && TargetOk(cfg, t', mems', m)
  {
    hide ClassesOk, HookedFlags;
    assert PairedAt(t.hooked, target) && PairedAt(t.hooked, t.hooked[target].other);
    assert TargetOk(cfg, t, mems, m);
    if m in t.hooked {
      assert PairedAt(t.hooked, m);
    }
  }

  lemma {:induction false} UnHookKeepsClasses(t: Tables, mems: map<ArtMethod, Record>,
      target: ArtMethod, t': Tables, mems': map<ArtMethod, Record>)
    requires t.hooked.Keys <= mems.Keys && ClassesOk(t, mems) && IsTarget(t.hooked, target) && PairedAt(t.hooked, target)
    requires t'.hooked == t.hooked - {target, t.hooked[target].other}
    requires t'.classes == UnHookClasses(t.classes, mems[target].declaringClass, target)
    requires t'.hooked.Keys <= mems'.Keys <= mems.Keys
    requires forall m :: m in mems' && m != target ==> mems'[m] == mems[m]
    ensures ClassesOk(t', mems')
  {
    forall c, m | c in t'.classes && m in t'.classes[c]
      ensures IsTarget(t'.hooked, m) && mems'[m].declaringClass == c
    {
      assert c in t.classes && m in t.classes[c];
      assert IsTarget(t.hooked, m) && m != target;
    }
    forall m | m in t'.hooked && IsTarget(t'.hooked, m) ensures m in ClassMembers(t'.classes, mems'[m].declaringClass) {
      assert m in ClassMembers(t.classes, mems[m].declaringClass);
    }
  }

  /** Unhooking a hooked target keeps the invariant. */
  lemma {:induction false} UnHookKeepsInv(cfg: Config, t: Tables, mems: map<ArtMethod, Record>,
      target: ArtMethod, t': Tables, mems': map<ArtMethod, Record>)
    requires Inv(cfg, t, mems) && IsTarget(t.hooked, target)
    requires t'.hooked == t.hooked - {target, t.hooked[target].other} && t'.original == t.original
    requires t'.classes == UnHookClasses(t.classes, mems[target].declaringClass, target)
    requires t.original.Keys <= mems'.Keys <= mems.Keys && t'.hooked.Keys <= mems'.Keys
    requires forall m :: m in mems' && m != target ==> mems'[m] == mems[m]
    requires mems'[target] == mems[t.hooked[target].other].(flags := mems[target].flags)
    ensures Inv(cfg, t', mems')
  {
    hide TargetOk, ClassesOk, HookedFlags;
    EraseKeepsPairing(t.hooked, target);
    forall m | m in t'.hooked ensures t'.hooked[m].other in mems' {
      assert PairedAt(t'.hooked, m);
    }
    forall m | m in t'.original ensures TargetOk(cfg, t', mems', m) {
      UnHookKeepsTarget(cfg, t, mems, target, t', mems', m);
    }
    UnHookKeepsClasses(t, mems, target, t', mems');
  }

  lemma {:induction false} TargetFacts(cfg: Config, t: Tables, mems: map<ArtMethod, Record>, target: ArtMethod)
    requires Inv(cfg, t, mems) && IsTarget(t.hooked, target)
    ensures target in t.original && target in mems && t.hooked[target].other in mems && t.hooked[target].other != target
    ensures SameButFlags(mems[t.hooked[target].other], t.original[target])
    ensures mems[target].flags == HookedFlags(cfg, t.original[target].flags)
  {
    hide HookedFlags, ClassesOk;
    assert PairedAt(t.hooked, target) && TargetOk(cfg, t, mems, target);
  }

  class Engine {
    const cfg: Config
    var hooked: map<ArtMethod, Entry>                    // hooked_methods_
    var hookedClasses: map<nat, set<ArtMethod>>          // hooked_classes_
    var deoptimized: set<ArtMethod>                      // deoptimized_methods_set_
    var jitMovements: seq<(ArtMethod, ArtMethod)>
    ghost var original: map<ArtMethod, Record>           // memory of each target when it was first hooked

    ghost function Now(): Tables
      reads this
    {
      Tables(hooked, hookedClasses, original)
    }

    /** The memory of every method the tables know. */
    ghost function Memories(): map<ArtMethod, Record>
      reads this, hooked.Keys, original.Keys
    {
      map m | m in hooked.Keys + original.Keys :: m.mem
    }

    ghost predicate Valid()
      reads this, hooked.Keys, original.Keys
    {
      Inv(cfg, Now(), Memories())
    }

    constructor (cfg: Config)
      ensures Valid() && hooked == map[] && original == map[] && this.cfg == cfg
    {
      this.cfg := cfg;
      hooked, hookedClasses, deoptimized, jitMovements, original := map[], map[], {}, [], map[];
    }

    /** The partner of m. As the code has it, the flag is the wrong way round: with includingBackup
        the answer is about targets; without it, it is about targets exactly for the methods that
        are no backups, since a backup answers too. */
    method IsHooked(m: ArtMethod, includingBackup: bool) returns (r: Option<ArtMethod>)
      ensures r.Some? ==> m in hooked && r.value == hooked[m].other
      ensures includingBackup ==> (r.Some? <==> IsTarget(hooked, m))
      ensures !includingBackup ==> (r.Some? <==> IsTarget(hooked, m) || IsBackup(hooked, m))
      ensures !includingBackup ==> ((r.Some? <==> IsTarget(hooked, m)) <==> !IsBackup(hooked, m))
    {
      r := None;
      if m in hooked {
        if !includingBackup || hooked[m].reflected.Some? {
          r := Some(hooked[m].other);
        }
      }
    }

    /** DoHook; the trampoline is none when it could not be generated. */
    method DoHook(target: ArtMethod, hook: ArtMethod, backup: ArtMethod, trampoline: Option<nat>) returns (ok: bool)
      requires target != hook && target != backup && hook != backup
      modifies target, hook, backup
      ensures ok <==> trampoline.Some?
      ensures !ok ==> target.mem == old(target.mem) && hook.mem == old(hook.mem) && backup.mem == old(backup.mem)
      ensures ok ==> SameButFlags(backup.mem, old(target.mem))
      ensures ok ==> target.mem == Redirected(cfg, old(target.mem), trampoline.value).(flags := HookedFlags(cfg, old(target.mem.flags)))
      ensures ok ==> hook.mem == old(hook.mem).(flags := NonCompilable(cfg, old(hook.mem.flags)))
      ensures ok ==> backup.mem.flags == BackupFlags(cfg, old(target.mem.flags))
      ensures ok ==> TargetBits(cfg, old(target.mem.flags), target.mem.flags) && HookBits(cfg, old(hook.mem.flags), hook.mem.flags)
      ensures ok && HighMasks(cfg) ==> BackupBits(cfg, old(target.mem.flags), backup.mem.flags)
    {
      hide TargetBits, HookBits, BackupBits, HighMasks, NonCompilable, NoFastInterpret;
      TargetFlagBits(cfg, target.mem.flags);
      HookFlagBits(cfg, hook.mem.flags);
      if HighMasks(cfg) {
        BackupFlagBits(cfg, target.mem.flags);
      }
      if trampoline.None? {
        return false;
      }
      target.SetNonCompilable(cfg);
      hook.SetNonCompilable(cfg);
      backup.CopyFrom(target);
      target.ClearFastInterpretFlag(cfg);
      target.SetEntryPoint(cfg, trampoline.value);
      if !backup.IsStatic() {
        backup.SetPrivate();
      }
      return true;
    }

    /** DoUnHook: the backup's memory comes back under the target's present flags. */
    method DoUnHook(target: ArtMethod, backup: ArtMethod)
      modifies target
      ensures target.mem == old(backup.mem).(flags := old(target.mem.flags))
    {
      var accessFlags := target.mem.flags;
      target.CopyFrom(backup);
      target.mem := target.mem.(flags := accessFlags);
    }

    /** hooked_classes_ and hooked_methods_ both learn of the new pair. */
    method RecordHooked(target: ArtMethod, classDef: nat, reflected: nat, backup: ArtMethod)
      modifies this`hooked, this`hookedClasses
      ensures hooked == Recorded(old(hooked), target, reflected, backup)
      ensures hookedClasses == old(hookedClasses)[classDef := ClassMembers(old(hookedClasses), classDef) + {target}]
    {
      if classDef in hookedClasses {
        hookedClasses := hookedClasses[classDef := hookedClasses[classDef] + {target}];
      } else {
        assert {} + {target} == {target};
        hookedClasses := hookedClasses[classDef := {target}];
      }
      hooked := InsertNew(InsertNew(hooked, target, Entry(Some(reflected), backup)), backup, Entry(None, target));
    }

    /** The records that a successful hook leaves; mem is the target's memory before it. */
    method RecordAll(target: ArtMethod, reflected: nat, backup: ArtMethod, proxy: bool, ghost mem: Record)
      requires target.mem.declaringClass == mem.declaringClass
      modifies this`hooked, this`hookedClasses, this`deoptimized, this`jitMovements, this`original
      ensures Now() == HookTables(old(Now()), target, reflected, backup, mem)
      ensures deoptimized == old(deoptimized) + {backup}
      ensures jitMovements == old(jitMovements) + if proxy then [] else [(target, backup)]
    {
      original := InsertNew(original, target, mem);
      RecordHooked(target, target.mem.declaringClass, reflected, backup);
      if !proxy {
        jitMovements := jitMovements + [(target, backup)];
      }
      deoptimized := deoptimized + {backup};
    }

    /** Hook, from the duplicate test on; hook and backup are the methods of the class just
        built, so no table knows them. */
    method Hook(target: ArtMethod, hook: ArtMethod, backup: ArtMethod, reflected: nat, trampoline: Option<nat>, proxy: bool)
        returns (r: Option<nat>)
      requires Valid()
      requires target != hook && target != backup && hook != backup
      requires hook !in hooked && backup !in hooked && hook !in original && backup !in original
      modifies this`hooked, this`hookedClasses, this`deoptimized, this`jitMovements, this`original, target, hook, backup
      ensures r == if old(IsTarget(hooked, target)) || trampoline.None? then None else Some(reflected)
      ensures r.None? ==> hooked == old(hooked) && hookedClasses == old(hookedClasses) && original == old(original)
      ensures r.None? ==> target.mem == old(target.mem) && hook.mem == old(hook.mem) && backup.mem == old(backup.mem)
      ensures r.None? ==> deoptimized == old(deoptimized) && jitMovements == old(jitMovements)
      ensures r.Some? ==> hooked == Recorded(old(hooked), target, reflected, backup)
      ensures r.Some? ==> target.mem == Redirected(cfg, old(target.mem), trampoline.value).(flags := target.mem.flags)
      ensures r.Some? ==> TargetBits(cfg, old(target.mem.flags), target.mem.flags) && HookBits(cfg, old(hook.mem.flags), hook.mem.flags)
      ensures r.Some? && HighMasks(cfg) ==> BackupBits(cfg, old(target.mem.flags), backup.mem.flags)
      ensures r.Some? ==> SameButFlags(backup.mem, old(target.mem)) && backup.mem.flags == BackupFlags(cfg, old(target.mem.flags))
      ensures r.Some? ==> hook.mem == old(hook.mem).(flags := NonCompilable(cfg, old(hook.mem.flags)))
      ensures r.Some? ==> deoptimized == old(deoptimized) + {backup}
      ensures r.Some? ==> jitMovements == old(jitMovements) + if proxy then [] else [(target, backup)]
      ensures r.Some? ==> original == InsertNew(old(original), target, old(target.mem))
      ensures old(target !in hooked) || r.None? ==> Valid()
    {
      hide Inv, HookedFlags, BackupFlags, NonCompilable, ClassMembers, TargetOk, ClassesOk, Paired, TargetBits, HookBits, BackupBits, HighMasks;
      var duplicate := IsHooked(target, true);
      if duplicate.Some? {
        return None;
      }
      ghost var t, mems, mem := Now(), Memories(), target.mem;
      var ok := DoHook(target, hook, backup, trampoline);
      if !ok {
        assert Memories() == mems;
        return None;
      }
      RecordAll(target, reflected, backup, proxy, mem);
      r := Some(reflected);
      if target !in old(hooked) {
        assert Valid() by {
          HookKeepsInv(cfg, t, mems, target, reflected, backup, mem, Now(), Memories());
        }
      }
    }

    /** The erase_if on hooked_classes_: a class that loses its last target goes too. */
    method ForgetInClass(classDef: nat, target: ArtMethod)
      modifies this`hookedClasses
      ensures hookedClasses == UnHookClasses(old(hookedClasses), classDef, target)
    {
      if classDef in hookedClasses {
        var left := hookedClasses[classDef] - {target};
        if left == {} {
          hookedClasses := hookedClasses - {classDef};
        } else {
          hookedClasses := hookedClasses[classDef := left];
        }
      }
    }

    /** UnHook: true exactly for a hooked target, whose fields all come back except the flags. */
    method UnHook(target: ArtMethod) returns (ok: bool)
      requires Valid()
      modifies this`hooked, this`hookedClasses, target
      ensures Valid()
      ensures ok == old(IsTarget(hooked, target))
      ensures !ok ==> hooked == old(hooked) && hookedClasses == old(hookedClasses) && target.mem == old(target.mem)
      ensures ok ==> hooked == old(hooked) - {target, old(hooked)[target].other}
      ensures ok ==> target in original && SameButFlags(target.mem, original[target])
      ensures ok ==> target.mem.flags == HookedFlags(cfg, original[target].flags)
      ensures ok ==> TargetBits(cfg, original[target].flags, target.mem.flags)
    {
      hide Inv, HookedFlags, UnHookClasses, TargetOk, ClassesOk, Paired, TargetBits;
      if target !in hooked || hooked[target].reflected.None? {
        return false;
      }
      ghost var t, mems := Now(), Memories();
      TargetFacts(cfg, t, mems, target);
      TargetFlagBits(cfg, original[target].flags);
      var backup := hooked[target].other;
      hooked := hooked - {target};
      hooked := hooked - {backup};
      ForgetInClass(target.mem.declaringClass, target);
      DoUnHook(target, backup);
      EraseTwice(t.hooked, target, backup);
      assert Valid() by {
        UnHookKeepsInv(cfg, t, mems, target, Now(), Memories());
      }
      return true;
    }

    method Step(op: Op)
      requires Valid()
      requires op.OpHook? ==> op.hook != op.backup && op.target !in Built(op) && Built(op) !! hooked.Keys + original.Keys
      requires op.target in hooked ==> IsTarget(hooked, op.target)
      modifies this`hooked, this`hookedClasses, this`deoptimized, this`jitMovements, this`original, {op.target} + Built(op)
      ensures Valid()
      ensures hooked == StepTable(old(hooked), op)
      ensures original == old(original) || original == old(original)[op.target := old(op.target.mem)]
      ensures op.target in old(original) ==> original == old(original)
      ensures op.target !in original ==> op.target.mem == old(op.target.mem)
    {
      hide Inv, HookedFlags, Recorded, BackupFlags, NonCompilable;
      match op {
        case OpHook(target, hook, backup, reflected, trampoline, proxy) =>
          var r := Hook(target, hook, backup, reflected, trampoline, proxy);
        case OpUnHook(target) =>
          var ok := UnHook(target);
      }
    }

    /** Any run of Hook and UnHook whose hook and backup methods are fresh and whose targets are
        no backups: the pairing is kept, and every target that ends unhooked has the memory it
        had before its first Hook, but for the flag bits that hooking sets and clears. */
    method Run(ops: seq<Op>)
      requires Valid() && Admissible(ops, hooked, original.Keys)
      modifies this`hooked, this`hookedClasses, this`deoptimized, this`jitMovements, this`original, Touched(ops)
      ensures Valid() && Paired(hooked)
      ensures hooked == RunTable(old(hooked), ops)
      ensures forall m :: m in old(original) ==> m in original && original[m] == old(original)[m]
      ensures forall m :: m in original && m !in old(original) ==> old(allocated(m)) && original[m] == old(m.mem)
      ensures forall m :: m in original && m !in hooked ==>
        m.mem == original[m].(flags := HookedFlags(cfg, original[m].flags)) && TargetBits(cfg, original[m].flags, m.mem.flags)
    {
      hide Inv, HookedFlags, Admissible, StepTable, Built, Touched, RunTable, TargetBits;
      var i := 0;
      while i < |ops|
        invariant 0 <= i <= |ops|
        invariant Valid()
        invariant Admissible(ops[i..], hooked, original.Keys)
        invariant RunTable(old(hooked), ops) == RunTable(hooked, ops[i..])
        invariant forall m :: m in old(original) ==> m in original && original[m] == old(original)[m]
        invariant forall m :: m in original && m !in old(original) ==> old(allocated(m)) && original[m] == old(m.mem)
        invariant forall op :: op in ops[i..] && op.target !in original ==> op.target.mem == old(op.target.mem)
      {
        ghost var before, known := hooked, original.Keys;
        var op := ops[i];
        assert ops[i..][0] == op && ops[i..][1..] == ops[i + 1..];
        AdmissibleHead(ops[i..], hooked, known);
        TouchedByHead(ops, i);
        Step(op);
        AdmissibleTail(ops[i..], before, known, hooked, original.Keys);
        RunTableStep(before, ops[i..]);
        i := i + 1;
      }
      assert ops[i..] == [];
      RunTableStep(hooked, ops[i..]);
      UnhookedRestored(cfg, Now(), Memories());
    }
  }

  /** After a single hook the default question is answered for the backup as for a hooked method. */
  method BackupAnswers(cfg: Config, target: ArtMethod, hook: ArtMethod, backup: ArtMethod, reflected: nat, trampoline: nat, proxy: bool)
      returns (engine: Engine, byDefault: Option<ArtMethod>, including: Option<ArtMethod>)
    requires target != hook && target != backup && hook != backup
    modifies target, hook, backup
    ensures !IsTarget(engine.hooked, backup) && byDefault == Some(target) && including == None
  {
    engine := new Engine(cfg);
    var r := engine.Hook(target, hook, backup, reflected, Some(trampoline), proxy);
    byDefault := engine.IsHooked(backup, false);
    including := engine.IsHooked(backup, true);
  }

  // ----- such a run: a method is hooked, unhooked, and hooked again with other methods -----

  ghost predicate AllDifferent(ms: seq<ArtMethod>) { forall i, j :: 0 <= i < j < |ms| ==> ms[i] != ms[j] }

  /** ms lists the target, and the hook and backup methods of the two hooks. */
  function TwiceOps(ms: seq<ArtMethod>, trampoline: nat): seq<Op>
    requires |ms| == 5
  {
    [OpHook(ms[0], ms[1], ms[2], 1, Some(trampoline), false), OpUnHook(ms[0]),
     OpHook(ms[0], ms[3], ms[4], 2, Some(trampoline), false)]
  }

  function TwiceTable(ms: seq<ArtMethod>): map<ArtMethod, Entry>
    requires |ms| == 5
  {
    map[ms[0] := Entry(Some(2), ms[4]), ms[4] := Entry(None, ms[0])]
  }

  lemma {:induction false} TwiceAdmissible(ms: seq<ArtMethod>, trampoline: nat)
    requires |ms| == 5 && AllDifferent(ms)
    ensures Admissible(TwiceOps(ms, trampoline), map[], {})
    ensures Touched(TwiceOps(ms, trampoline)) <= set m | m in ms
  {
    assert ms[0] != ms[1] && ms[0] != ms[2] && ms[0] != ms[3] && ms[0] != ms[4];
    assert ms[1] != ms[2] && ms[1] != ms[3] && ms[1] != ms[4] && ms[2] != ms[3] && ms[2] != ms[4] && ms[3] != ms[4];
    var ops := TwiceOps(ms, trampoline);
    assert Built(ops[0]) == {ms[1], ms[2]} && Built(ops[1]) == {} && Built(ops[2]) == {ms[3], ms[4]};
    forall op, m | op in ops && m in {op.target} + Built(op) ensures m in ms {
      assert op == ops[0] || op == ops[1] || op == ops[2];
    }
  }

  lemma {:induction false} TwiceLeaves(ms: seq<ArtMethod>, trampoline: nat)
    requires |ms| == 5 && AllDifferent(ms)
    ensures RunTable(map[], TwiceOps(ms, trampoline)) == TwiceTable(ms)
  {
    var ops := TwiceOps(ms, trampoline);
    var t := map[ms[0] := Entry(Some(1), ms[2]), ms[2] := Entry(None, ms[0])];
    assert ms[0] != ms[2] && ms[0] != ms[4];
    assert StepTable(map[], ops[0]) == t;
    assert StepTable(t, ops[1]) == map[] by {
      assert t - {ms[0], ms[2]} == map[];
    }
    assert StepTable(map[], ops[2]) == TwiceTable(ms);
    hide StepTable, TwiceTable;
    RunTableStep(map[], ops);
    RunTableStep(t, ops[1..]);
    RunTableStep(map[], ops[2..]);
    assert ops[1..][1..] == ops[2..] && ops[2..][1..] == [];
  }

  method HookTwice(cfg: Config, ms: seq<ArtMethod>, trampoline: nat) returns (engine: Engine)
    requires |ms| == 5 && AllDifferent(ms)
    modifies set m | m in ms
    ensures engine.Valid() && engine.hooked == TwiceTable(ms)
  {
    hide Admissible, RunTable, Touched, Inv, TwiceTable, AllDifferent;
    engine := new Engine(cfg);
    TwiceAdmissible(ms, trampoline);
    TwiceLeaves(ms, trampoline);
    assert engine.original.Keys == {};
    engine.Run(TwiceOps(ms, trampoline));
  }

  lemma {:induction false} UnhookedRestored(cfg: Config, t: Tables, mems: map<ArtMethod, Record>)
    requires Inv(cfg, t, mems)
    ensures Paired(t.hooked)
    ensures forall m :: m in t.original && m !in t.hooked ==>
      m in mems && mems[m] == t.original[m].(flags := HookedFlags(cfg, t.original[m].flags))
        && TargetBits(cfg, t.original[m].flags, mems[m].flags)
  {
    hide HookedFlags, ClassesOk, TargetBits;
    forall m | m in t.original ensures TargetOk(cfg, t, mems, m) && TargetBits(cfg, t.original[m].flags, HookedFlags(cfg, t.original[m].flags)) {
      TargetFlagBits(cfg, t.original[m].flags);
    }
  }

  datatype Op =
    | OpHook(target: ArtMethod, hook: ArtMethod, backup: ArtMethod, reflected: nat, trampoline: Option<nat>, proxy: bool)
    | OpUnHook(target: ArtMethod)

  /** The methods that belong to the class built for this hook. */
  function Built(op: Op): set<ArtMethod> { if op.OpHook? then {op.hook, op.backup} else {} }

  ghost function Touched(ops: seq<Op>): set<ArtMethod> {
    set op, m | op in ops && m in {op.target} + Built(op) :: m
  }

  /** Every hook and backup method is new to the tables, used once, and never a target; no
      target is the backup of an earlier hook. */
  ghost predicate Admissible(ops: seq<Op>, hooked: map<ArtMethod, Entry>, known: set<ArtMethod>) {
    && (forall op :: op in ops && op.OpHook? ==> op.hook != op.backup)
    && (forall op :: op in ops ==> Built(op) !! hooked.Keys + known)
    && (forall op, op' :: op in ops && op' in ops ==> op'.target !in Built(op))
    && (forall i, j :: 0 <= i < j < |ops| ==> Built(ops[i]) !! Built(ops[j]))
    && (forall op :: op in ops && op.target in hooked ==> IsTarget(hooked, op.target))
  }

  function StepTable(hooked: map<ArtMethod, Entry>, op: Op): map<ArtMethod, Entry> {
    match op
    case OpHook(target, _, backup, reflected, trampoline, _) =>
      if IsTarget(hooked, target) || trampoline.None? then hooked else Recorded(hooked, target, reflected, backup)
    case OpUnHook(target) =>
      if IsTarget(hooked, target) then hooked - {target, hooked[target].other} else hooked
  }

  function RunTable(hooked: map<ArtMethod, Entry>, ops: seq<Op>): map<ArtMethod, Entry>
    decreases |ops|
  {
    if ops == [] then hooked else RunTable(StepTable(hooked, ops[0]), ops[1..])
  }

  lemma {:induction false} RunTableStep(hooked: map<ArtMethod, Entry>, ops: seq<Op>)
    ensures RunTable(hooked, ops) == if ops == [] then hooked else RunTable(StepTable(hooked, ops[0]), ops[1..])
  {
  }

  lemma {:induction false} TouchedByHead(ops: seq<Op>, i: nat)
    requires i < |ops|
    ensures {ops[i].target} + Built(ops[i]) <= Touched(ops)
  {
    assert ops[i] in ops;
  }

  lemma {:induction false} AdmissibleHead(ops: seq<Op>, hooked: map<ArtMethod, Entry>, known: set<ArtMethod>)
    requires ops != [] && Admissible(ops, hooked, known)
    ensures var op := ops[0];
      && (op.OpHook? ==> op.hook != op.backup && op.target !in Built(op) && Built(op) !! hooked.Keys + known)
      && (op.target in hooked ==> IsTarget(hooked, op.target))
    ensures forall op :: op in ops ==> op.target !in Built(ops[0])
  {
    assert ops[0] in ops;
  }

  lemma {:induction false} AdmissibleTail(ops: seq<Op>, hooked: map<ArtMethod, Entry>, known: set<ArtMethod>,
      hooked': map<ArtMethod, Entry>, known': set<ArtMethod>)
    requires ops != [] && Admissible(ops, hooked, known)
    requires hooked' == StepTable(hooked, ops[0])
    requires known <= known' <= known + {ops[0].target}
    ensures Admissible(ops[1..], hooked', known')
  {
    var first := ops[0];
    assert first in ops;
    forall m | m in hooked' ensures m in hooked || m == first.target || (first.OpHook? && m == first.backup) {
    }
    forall op | op in ops[1..] ensures Built(op) !! hooked'.Keys + known' {
      var j :| 0 <= j < |ops[1..]| && ops[1..][j] == op;
      assert op == ops[j + 1] && op in ops;
      assert Built(ops[0]) !! Built(ops[j + 1]);
    }
    forall i, j | 0 <= i < j < |ops[1..]| ensures Built(ops[1..][i]) !! Built(ops[1..][j]) {
      assert Built(ops[i + 1]) !! Built(ops[j + 1]);
    }
    forall op | op in ops[1..] && op.target in hooked' ensures IsTarget(hooked', op.target) {
      assert op in ops;
      assert op.target !in Built(first);
    }
  }
}
