/** JavaDebuggableGuard: a reference count whose value 1 marks a thread that is switching the
    runtime between its two modes. A guard object is a thread of control of its own here:
    its constructor and destructor are the atomic steps below, interleaved without limit
    with those of any number of other guards. */
module DebuggableGuard {

  type Guard = nat

  /** Where a guard's constructor or destructor stands. */
  datatype Pc =
    | Absent                   // before the constructor, or after the destructor
    | CtorTry                  // about to compare-exchange 0 -> 1
    | CtorSwitch               // count is 1: about to call SetJavaDebuggable(kJavaDebuggableAtInit)
    | CtorPublish              // about to fetch_add
    | CtorSaw(expected: nat)   // the first exchange failed and loaded expected
    | CtorWait                 // in count.wait(1)
    | Alive
    | DtorTry                  // about to compare-exchange 2 -> 1
    | DtorSwitch               // about to call SetJavaDebuggable(kNonJavaDebuggable)
    | DtorPublish              // about to fetch_sub
    | DtorSaw(expected: nat)
    | DtorWait

  datatype State = State(count: nat, debuggable: bool, pc: map<Guard, Pc>)

  const Init := State(0, false, map[])

  function PcOf(s: State, g: Guard): Pc { if g in s.pc then s.pc[g] else Absent }

  /** What one guard's step reads and writes. */
  datatype View = View(count: nat, debuggable: bool, pc: Pc)

  /** The next atomic step of a guard; a blocked wait stays where it is. */
  function Move(v: View): View {
    match v.pc
    case Absent => v.(pc := CtorTry)
    case CtorTry => if v.count == 0 then v.(count := 1, pc := CtorSwitch) else v.(pc := CtorSaw(v.count))
    case CtorSwitch => v.(debuggable := true, pc := CtorPublish)
    case CtorPublish => v.(count := v.count + 1, pc := Alive)
    case CtorSaw(e) =>
      if e == 1 then v.(pc := CtorWait)
      else if v.count == e then v.(count := e + 1, pc := Alive)
      else v.(pc := CtorTry)
    case CtorWait => if v.count != 1 then v.(pc := CtorTry) else v
    case Alive => v.(pc := DtorTry)
    case DtorTry => if v.count == 2 then v.(count := 1, pc := DtorSwitch) else v.(pc := DtorSaw(v.count))
    case DtorSwitch => v.(debuggable := false, pc := DtorPublish)
    case DtorPublish => v.(count := Minus1(v.count), pc := Absent)
    case DtorSaw(e) =>
      if e == 1 then v.(pc := DtorWait)
      else if v.count == e then v.(count := Minus1(e), pc := Absent)
      else v.(pc := DtorTry)
    case DtorWait => if v.count != 1 then v.(pc := DtorTry) else v
  }

  /** size_t subtraction; DestructorSees shows that it never starts from 0. */
  function Minus1(n: nat): (r: nat)
    ensures (r + 1 - n) % 0x1_0000_0000_0000_0000 == 0
  {
    if n == 0 then 0xFFFF_FFFF_FFFF_FFFF else n - 1
  }

  function Step(s: State, g: Guard): State {
    var v := Move(View(s.count, s.debuggable, PcOf(s, g)));
    State(v.count, v.debuggable, s.pc[g := v.pc])
  }

  function Run(s: State, schedule: seq<Guard>): State
    decreases |schedule|
  {
    if schedule == [] then s else Run(Step(s, schedule[0]), schedule[1..])
  }

  // ----- the invariant -----

  predicate Holds(pc: Pc) { pc.Alive? || pc.DtorTry? || pc.DtorSaw? || pc.DtorWait? }
  predicate Switching(pc: Pc) { pc.CtorSwitch? || pc.CtorPublish? || pc.DtorSwitch? || pc.DtorPublish? }

  /** Guards whose constructor has returned and whose destructor has not given up the count. */
  function Holders(s: State): set<Guard> { set g | g in s.pc && Holds(s.pc[g]) }
  function Transitioning(s: State): set<Guard> { set g | g in s.pc && Switching(s.pc[g]) }

  ghost predicate Inv(s: State) {
    && CountInv(s.count, s.debuggable, Holders(s), Transitioning(s))
    && (forall g :: g in s.pc ==> PcInv(s.debuggable, s.pc[g]))
  }

  ghost predicate CountInv(count: nat, debuggable: bool, holders: set<Guard>, transitioning: set<Guard>) {
    && (count == 0 ==> holders == {} && transitioning == {} && !debuggable)
    && (count == 1 ==> holders == {} && |transitioning| == 1)
    && (count >= 2 ==> transitioning == {} && |holders| == count - 1 && debuggable)
  }

  ghost predicate PcInv(debuggable: bool, pc: Pc) {
    match pc
    case CtorSwitch => !debuggable
    case CtorPublish => debuggable
    case DtorSwitch => debuggable
    case DtorPublish => !debuggable
    case CtorSaw(e) => e >= 1
    case DtorSaw(e) => e >= 3
    case DtorWait => false
    case _ => true
  }

  lemma Alone(a: set<Guard>, g: Guard)
    requires |a| == 1 && g in a
    ensures a == {g} && a - {g} == {}
  {
    assert |a - {g}| == 0;
  }

  function With(a: set<Guard>, g: Guard, b: bool): set<Guard> { if b then a + {g} else a - {g} }

  ghost predicate At(v: View, holders: set<Guard>, transitioning: set<Guard>, g: Guard) {
    && CountInv(v.count, v.debuggable, holders, transitioning) && PcInv(v.debuggable, v.pc)
    && (g in holders <==> Holds(v.pc)) && (g in transitioning <==> Switching(v.pc))
  }

  ghost predicate Counted(v: View, holders: set<Guard>, transitioning: set<Guard>, g: Guard) {
    CountInv(v.count, v.debuggable, With(holders, g, Holds(v.pc)), With(transitioning, g, Switching(v.pc)))
  }

  lemma {:induction false} SwitcherKeeps(v: View, holders: set<Guard>, transitioning: set<Guard>, g: Guard)
    requires At(v, holders, transitioning, g) && Switching(v.pc)
    ensures Counted(Move(v), holders, transitioning, g)
  {
    Alone(transitioning, g);
  }

  lemma {:induction false} HolderKeeps(v: View, holders: set<Guard>, transitioning: set<Guard>, g: Guard)
    requires At(v, holders, transitioning, g) && Holds(v.pc)
    ensures Counted(Move(v), holders, transitioning, g)
  {
    assert v.count >= 2 && holders + {g} == holders;
    if |holders| == 1 {
      Alone(holders, g);
    }
  }

  lemma {:induction false} OutsiderKeeps(v: View, holders: set<Guard>, transitioning: set<Guard>, g: Guard)
    requires At(v, holders, transitioning, g) && !Switching(v.pc) && !Holds(v.pc)
    ensures Counted(Move(v), holders, transitioning, g)
  {
    var v' := Move(v);
    assert holders - {g} == holders && transitioning - {g} == transitioning;
    if Holds(v'.pc) {
      assert v.count >= 2 && v'.count == v.count + 1 && v'.debuggable == v.debuggable;
      assert |holders + {g}| == |holders| + 1;
    } else if Switching(v'.pc) {
      assert v.count == 0 && v'.count == 1;
      assert transitioning + {g} == {g};
    } else {
      assert v'.count == v.count && v'.debuggable == v.debuggable;
    }
  }

  /** The counting part of the invariant through one step, on the two sets alone. */
  lemma {:induction false} CountKeeps(v: View, holders: set<Guard>, transitioning: set<Guard>, g: Guard)
    requires At(v, holders, transitioning, g)
    ensures Counted(Move(v), holders, transitioning, g)
  {
    hide Move, Counted, At;
    if Switching(v.pc) {
      SwitcherKeeps(v, holders, transitioning, g);
    } else if Holds(v.pc) {
      HolderKeeps(v, holders, transitioning, g);
    } else {
      OutsiderKeeps(v, holders, transitioning, g);
    }
  }

  lemma {:induction false} ModeKeeps(v: View, holders: set<Guard>, transitioning: set<Guard>, g: Guard)
    requires CountInv(v.count, v.debuggable, holders, transitioning) && PcInv(v.debuggable, v.pc)
    requires (g in holders <==> Holds(v.pc)) && (g in transitioning <==> Switching(v.pc))
    ensures PcInv(Move(v).debuggable, Move(v).pc)
    ensures Move(v).debuggable != v.debuggable ==> transitioning == {g}
  {
    if Switching(v.pc) {
      Alone(transitioning, g);
    }
    if Holds(v.pc) {
      assert v.count >= 2;
    }
  }

  lemma SetsAfter(s: State, s': State, g: Guard)
    requires g in s'.pc && s'.pc == s.pc[g := s'.pc[g]]
    ensures Holders(s') == With(Holders(s), g, Holds(s'.pc[g]))
    ensures Transitioning(s') == With(Transitioning(s), g, Switching(s'.pc[g]))
  {}

  lemma {:induction false} StepKeepsInv(s: State, g: Guard)
    requires Inv(s)
    ensures Inv(Step(s, g))
  {
    var v := View(s.count, s.debuggable, PcOf(s, g));
    var s' := Step(s, g);
    CountKeeps(v, Holders(s), Transitioning(s), g);
    ModeKeeps(v, Holders(s), Transitioning(s), g);
    SetsAfter(s, s', g);
    forall h | h in s'.pc ensures PcInv(s'.debuggable, s'.pc[h]) {
      if h != g && s'.debuggable != s.debuggable {
        assert h !in Transitioning(s);
      }
    }
  }

  /** Every interleaving of every set of guards keeps the invariant. */
  lemma {:induction false} RunKeepsInv(s: State, schedule: seq<Guard>)
    requires Inv(s)
    ensures Inv(Run(s, schedule))
    decreases |schedule|
  {
    if schedule != [] {
      StepKeepsInv(s, schedule[0]);
      RunKeepsInv(Step(s, schedule[0]), schedule[1..]);
    }
  }

  /** In every reachable state: the count is 0 without holders, 1 with exactly one guard
      switching modes, and otherwise one more than the holders; the runtime is debuggable
      while any guard is held and non-debuggable when the count is 0. */
  lemma {:induction false} GuardCorrect(schedule: seq<Guard>)
    ensures var s := Run(Init, schedule);
      && (s.count == 0 <==> Holders(s) == {} && Transitioning(s) == {})
      && (s.count == 1 <==> |Transitioning(s)| == 1)
      && (s.count == 1 ==> Holders(s) == {})
      && (s.count != 1 ==> s.count == if Holders(s) == {} then 0 else |Holders(s)| + 1)
      && (Holders(s) != {} ==> s.debuggable)
      && (s.count == 0 ==> !s.debuggable)
  {
    RunKeepsInv(Init, schedule);
  }

  /** A destructor never finds the count at 0 or 1 while it still holds its share: its wait
      is dead code and its second exchange never starts from less than 3. */
  lemma {:induction false} DestructorSees(schedule: seq<Guard>, g: Guard)
    ensures var s := Run(Init, schedule);
      && (PcOf(s, g).DtorTry? ==> s.count >= 2)
      && (PcOf(s, g).DtorSaw? ==> PcOf(s, g).expected >= 3 && s.count >= 2)
      && !PcOf(s, g).DtorWait?
  {
    RunKeepsInv(Init, schedule);
    var s := Run(Init, schedule);
    if Holds(PcOf(s, g)) {
      assert g in Holders(s);
    }
  }

  /** Only a waiting guard cannot move. */
  lemma {:induction false} Blocked(s: State, g: Guard)
    ensures Step(s, g) == s <==> s.count == 1 && (PcOf(s, g).CtorWait? || PcOf(s, g).DtorWait?)
  {
    var stays := Move(View(s.count, s.debuggable, PcOf(s, g))).pc == PcOf(s, g);
    assert stays <==> s.count == 1 && (PcOf(s, g).CtorWait? || PcOf(s, g).DtorWait?);
    if stays {
      assert s.pc[g := s.pc[g]] == s.pc;
    }
  }

  /** No interleaving gets stuck: if guard g waits, some guard can move, and the one that
      holds it up is switching modes. */
  lemma {:induction false} NoDeadlock(schedule: seq<Guard>, g: Guard)
    requires var s := Run(Init, schedule); Step(s, g) == s
    ensures var s := Run(Init, schedule);
      exists h :: h in Transitioning(s) && Step(s, h) != s
  {
    RunKeepsInv(Init, schedule);
    var s := Run(Init, schedule);
    Blocked(s, g);
    var h :| h in Transitioning(s);
    Blocked(s, h);
  }
}
