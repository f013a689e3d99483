/** One call of a hooked method: before-hooks, the original, after-hooks. */
module CallbackChain {

  datatype Option<+T> = None | Some(value: T)

  type Value = int          // an object; null is None
  type Throwable = int

  /** What a hook can see and change through its MethodHookParam, and the world around it. */
  datatype Param = Param(thisObject: Option<Value>, args: seq<Value>, world: int,
                         result: Option<Value>, throwable: Option<Throwable>, returnEarly: bool)

  /** A hook reaches result, throwable and returnEarly through the two setters only. */
  datatype Setter = SetResult(value: Option<Value>) | SetThrowable(t: Option<Throwable>)

  /** What one run of a hook method does: setter calls, new arguments and world, and whether it
      ends by throwing. */
  datatype Behaviour = Behaviour(sets: seq<Setter>, thisObject: Option<Value>, args: seq<Value>, world: int, throws: bool)

  /** A callback object: identity, priority, identity hash code, and its two methods. */
  datatype Hook = Hook(id: nat, priority: int, hash: int, before: Param -> Behaviour, after: Param -> Behaviour)

  /** How the reflective call of the backup ends: normally, by an exception of the method itself
      (wrapped), or by an exception of the reflection, which nothing catches. */
  datatype Call = Returned(value: Option<Value>) | Threw(t: Throwable) | Refused(t: Throwable)

  /** The original method: outcome and world afterwards, from receiver, arguments and world. */
  type Original = (Option<Value>, seq<Value>, int) -> (Call, int)

  // ----- the param object -----

  function Apply(p: Param, s: Setter): Param {
    match s
    case SetResult(v) => p.(result := v, throwable := None, returnEarly := true)
    case SetThrowable(t) => p.(throwable := t, result := None, returnEarly := true)
  }

  function ApplyAll(p: Param, sets: seq<Setter>): Param {
    if sets == [] then p else Apply(ApplyAll(p, sets[..|sets| - 1]), sets[|sets| - 1])
  }

  /** The param after a run of a hook method, thrown or not. */
  function After(p: Param, b: Behaviour): Param {
    ApplyAll(p, b.sets).(thisObject := b.thisObject, args := b.args, world := b.world)
  }

  /** A throwable excludes a result. */
  predicate Proper(p: Param) { p.throwable.Some? ==> p.result.None? }

  lemma {:induction false} ApplyAllProper(p: Param, sets: seq<Setter>)
    requires Proper(p)
    ensures Proper(ApplyAll(p, sets))
    ensures sets == [] ==> ApplyAll(p, sets) == p
    ensures sets != [] ==> ApplyAll(p, sets).returnEarly
    ensures !ApplyAll(p, sets).returnEarly ==> ApplyAll(p, sets) == p
  {
    if sets != [] {
      ApplyAllProper(p, sets[..|sets| - 1]);
    }
  }

  class MethodHookParam {
    var thisObject: Option<Value>
    var args: seq<Value>
    var result: Option<Value>
    var throwable: Option<Throwable>
    var returnEarly: bool
    var world: int

    constructor (thisObject: Option<Value>, args: seq<Value>, world: int)
      ensures Now() == Param(thisObject, args, world, None, None, false)
    {
      this.thisObject, this.args, this.world := thisObject, args, world;
      result, throwable, returnEarly := None, None, false;
    }

    function Now(): Param
      reads this
    {
      Param(thisObject, args, world, result, throwable, returnEarly)
    }

    method SetResult(value: Option<Value>)
      modifies this
      ensures Now() == Apply(old(Now()), Setter.SetResult(value))
    {
      result := value;
      throwable := None;
      returnEarly := true;
    }

    method SetThrowable(t: Option<Throwable>)
      modifies this
      ensures Now() == Apply(old(Now()), Setter.SetThrowable(t))
    {
      throwable := t;
      result := None;
      returnEarly := true;
    }

    /** A hook method runs on this param. */
    method Run(b: Behaviour)
      modifies this
      ensures Now() == After(old(Now()), b)
    {
      for i := 0 to |b.sets|
        invariant Now() == ApplyAll(old(Now()), b.sets[..i])
      {
        assert b.sets[..i + 1][..i] == b.sets[..i];
        match b.sets[i] {
          case SetResult(v) => SetResult(v);
          case SetThrowable(t) => SetThrowable(t);
        }
      }
      assert b.sets[..|b.sets|] == b.sets;
      thisObject, args, world := b.thisObject, b.args, b.world;
    }
  }

  // ----- the chain as a function -----

  /** One before-hook; if it throws, its outcome is dropped. */
  function BeforeStep(h: Hook, p: Param): Param {
    var p' := After(p, h.before(p));
    if h.before(p).throws then Apply(p', SetResult(None)).(returnEarly := false) else p'
  }

  /** The before-hooks from i on: the param after them, and how many hooks ran in all. */
  function Befores(hooks: seq<Hook>, i: nat, p: Param): (r: (Param, nat))
    requires i < |hooks|
    ensures i < r.1 <= |hooks|
    decreases |hooks| - i
  {
    var p' := BeforeStep(hooks[i], p);
    if p'.returnEarly || i + 1 == |hooks| then (p', i + 1) else Befores(hooks, i + 1, p')
  }

  /** One after-hook; if it throws, the outcome is put back. */
  function AfterStep(h: Hook, p: Param): Param {
    var p' := After(p, h.after(p));
    if !h.after(p).throws then p'
    else if p.throwable.None? then Apply(p', SetResult(p.result))
    else Apply(p', SetThrowable(p.throwable))
  }

  /** The after-hooks of the first n hooks, the last of them first. */
  function Afters(hooks: seq<Hook>, n: nat, p: Param): Param
    requires n <= |hooks|
  {
    if n == 0 then p else Afters(hooks, n - 1, AfterStep(hooks[n - 1], p))
  }

  /** What a run of the chain does, in order. */
  datatype Event = BeforeHook(i: nat) | OriginalCalled | AfterHook(i: nat)

  function BeforeEvents(n: nat): seq<Event> { if n == 0 then [] else BeforeEvents(n - 1) + [BeforeHook(n - 1)] }
  function AfterEvents(n: nat): seq<Event> { if n == 0 then [] else [AfterHook(n - 1)] + AfterEvents(n - 1) }

  /** Before-hooks upwards from the first, after-hooks downwards to the first. */
  lemma {:induction false} EventsInOrder(n: nat, k: nat)
    requires k < n
    ensures |BeforeEvents(n)| == n && BeforeEvents(n)[k] == BeforeHook(k)
    ensures |AfterEvents(n)| == n && AfterEvents(n)[k] == AfterHook(n - 1 - k)
  {
    if n == 1 {
    } else {
      EventsInOrder(n - 1, if k < n - 1 then k else 0);
      EventsInOrder(n - 1, if k > 0 then k - 1 else 0);
    }
  }

  /** How the call ends for the caller: a value, an exception, or a failed cast of the value. */
  datatype Outcome = Finished(v: Option<Value>) | Exception(t: Throwable) | ClassCast(uncastable: Value)

  function Finish(p: Param, castable: Value -> bool): Outcome {
    if p.throwable.Some? then Exception(p.throwable.value)
    else if p.result.Some? && !castable(p.result.value) then ClassCast(p.result.value)
    else Finished(p.result)
  }

  /** The first do-while loop of HookInfo.callback. */
  method RunBefores(hooks: seq<Hook>, param: MethodHookParam) returns (beforeIdx: nat, ghost log: seq<Event>)
    requires hooks != []
    modifies param
    ensures (param.Now(), beforeIdx) == Befores(hooks, 0, old(param.Now()))
    ensures log == BeforeEvents(beforeIdx)
  {
    hide After;
    log := [];
    beforeIdx := 0;
    while true
      invariant 0 <= beforeIdx < |hooks|
      invariant log == BeforeEvents(beforeIdx)
      invariant Befores(hooks, 0, old(param.Now())) == Befores(hooks, beforeIdx, param.Now())
      decreases |hooks| - beforeIdx
    {
      var b := hooks[beforeIdx].before(param.Now());
      param.Run(b);
      log := log + [BeforeHook(beforeIdx)];
      if b.throws {
        param.SetResult(None);
        param.returnEarly := false;
      } else if param.returnEarly {
        beforeIdx := beforeIdx + 1;
        break;
      }
      beforeIdx := beforeIdx + 1;
      if beforeIdx >= |hooks| {
        break;
      }
    }
  }

  /** One turn of the second loop. */
  method RunAfter(h: Hook, param: MethodHookParam)
    modifies param
    ensures param.Now() == AfterStep(h, old(param.Now()))
  {
    hide After;
    var lastResult, lastThrowable := param.result, param.throwable;
    var b := h.after(param.Now());
    param.Run(b);
    if b.throws {
      if lastThrowable.None? {
        param.SetResult(lastResult);
      } else {
        param.SetThrowable(lastThrowable);
      }
    }
  }

  lemma AftersUnfold(hooks: seq<Hook>, n: nat, p: Param)
    requires n <= |hooks|
    ensures Afters(hooks, n, p) == if n == 0 then p else Afters(hooks, n - 1, AfterStep(hooks[n - 1], p))
    ensures AfterEvents(n) == if n == 0 then [] else [AfterHook(n - 1)] + AfterEvents(n - 1)
  {
    hide AfterStep;
  }

  /** The second do-while loop, which restores the outcome that a throwing hook found. */
  method RunAfters(hooks: seq<Hook>, n: nat, param: MethodHookParam) returns (ghost log: seq<Event>)
    requires 0 < n <= |hooks|
    modifies param
    ensures param.Now() == Afters(hooks, n, old(param.Now()))
    ensures log == AfterEvents(n)
  {
    hide AfterStep, Afters, AfterEvents;
    log := [];
    var afterIdx := n - 1;
    while true
      invariant 0 <= afterIdx < n
      invariant AfterEvents(n) == log + AfterEvents(afterIdx + 1)
      invariant Afters(hooks, n, old(param.Now())) == Afters(hooks, afterIdx + 1, param.Now())
      decreases afterIdx
    {
      AftersUnfold(hooks, afterIdx + 1, param.Now());
      RunAfter(hooks[afterIdx], param);
      assert log + ([AfterHook(afterIdx)] + AfterEvents(afterIdx)) == log + [AfterHook(afterIdx)] + AfterEvents(afterIdx);
      log := log + [AfterHook(afterIdx)];
      if afterIdx == 0 {
        break;
      }
      afterIdx := afterIdx - 1;
    }
    AftersUnfold(hooks, 0, param.Now());
    assert log + [] == log;
  }

  /** HookInfo.callback on a snapshot of hooks. castable is the test of returnType.cast, always
      true where there is no such type. */
  method Callback(hooks: seq<Hook>, original: Original, thisObject: Option<Value>, args: seq<Value>, world: int,
      castable: Value -> bool) returns (outcome: Outcome, world': int, ghost log: seq<Event>, ghost found: Param)
    ensures hooks == [] ==>
      var (call, w) := original(thisObject, args, world);
      world' == w && outcome == if call.Returned? then Finished(call.value) else Exception(call.t)
    ensures hooks != [] ==>
      var (p1, n) := Befores(hooks, 0, Param(thisObject, args, world, None, None, false));
      var (call, w) := original(p1.thisObject, p1.args, p1.world);
      if !p1.returnEarly && call.Refused? then
        outcome == Exception(call.t) && world' == w
      else
        var p3 := Afters(hooks, n, if p1.returnEarly then p1 else Called(p1, call, w));
        outcome == Finish(p3, castable) && world' == p3.world
    ensures hooks == [] ==> log == [OriginalCalled]
    ensures hooks != [] ==>
      var (p1, n) := Befores(hooks, 0, Param(thisObject, args, world, None, None, false));
      var (call, _) := original(p1.thisObject, p1.args, p1.world);
      log == if p1.returnEarly then BeforeEvents(n) + AfterEvents(n)
             else if call.Refused? then BeforeEvents(n) + [OriginalCalled]
             else BeforeEvents(n) + [OriginalCalled] + AfterEvents(n)
    // the first hook has the last word: what its after-hook sets last, or else what it found
    ensures hooks != [] ==>
      var (p1, n) := Befores(hooks, 0, Param(thisObject, args, world, None, None, false));
      var (call, w) := original(p1.thisObject, p1.args, p1.world);
      p1.returnEarly || !call.Refused? ==>
        && found == Afters(hooks[1..], n - 1, if p1.returnEarly then p1 else Called(p1, call, w))
        && world' == hooks[0].after(found).world
        && Decides(hooks[0].after(found), found, outcome, castable)
    // passive hooks are invisible
    ensures (forall h :: h in hooks ==> Passive(h)) ==>
      var (call, w) := original(thisObject, args, world);
      && world' == w
      && (call.Threw? || call.Refused? ==> outcome == Exception(call.t))
      && (call.Returned? && (hooks == [] || call.value.None? || castable(call.value.value)) ==> outcome == Finished(call.value))
      && (call.Returned? && hooks != [] && call.value.Some? && !castable(call.value.value) ==> outcome == ClassCast(call.value.value))
  {
    hide Befores, Afters, BeforeEvents, AfterEvents, Passive, Decides;
    found := Param(thisObject, args, world, None, None, false);
    if hooks == [] {
      var (call, w) := original(thisObject, args, world);
      outcome, world', log := if call.Returned? then Finished(call.value) else Exception(call.t), w, [OriginalCalled];
      return;
    }
    BeforesProper(hooks, found);
    if forall h :: h in hooks ==> Passive(h) {
      PassiveHooksAreInvisible(hooks, original, found);
    }
    var param := new MethodHookParam(thisObject, args, world);
    var beforeIdx;
    beforeIdx, log := RunBefores(hooks, param);
    ghost var n := beforeIdx;
    assert log == log + [];
    if !param.returnEarly {
      var (call, w) := original(param.thisObject, param.args, param.world);
      log := log + [OriginalCalled];
      param.world := w;
      match call {
        case Returned(v) => param.SetResult(v);
        case Threw(t) => param.SetThrowable(Some(t));
        case Refused(t) =>
          outcome, world' := Exception(t), w;
          return;
      }
    }
    ghost var p2 := param.Now();
    ghost var more := RunAfters(hooks, beforeIdx, param);
    log := log + more;
    outcome, world' := Finish(param.Now(), castable), param.world;
    found := FirstHookDecides(hooks, n, p2, castable);
  }

  /** The param after the original has returned or thrown. */
  function Called(p: Param, call: Call, w: int): Param {
    var p' := p.(world := w);
    match call
    case Returned(v) => Apply(p', SetResult(v))
    case Threw(t) => Apply(p', SetThrowable(Some(t)))
    case Refused(_) => p'
  }

  // ----- what the chain guarantees -----

  /** Nothing is pending: what every before-hook finds. */
  predicate Idle(p: Param) { p.result.None? && p.throwable.None? && !p.returnEarly }

  /** The param that before-hook i finds, if it runs. */
  function ParamAt(hooks: seq<Hook>, p: Param, i: nat): Param
    requires i <= |hooks|
  {
    if i == 0 then p else BeforeStep(hooks[i - 1], ParamAt(hooks, p, i - 1))
  }

  /** The before-hooks run on a prefix of the snapshot: to the first that asks for an early return
      without throwing, or to the end; each of them finds nothing pending. */
  lemma {:induction false} PrefixRuns(hooks: seq<Hook>, p: Param, i: nat)
    requires i < |hooks| && Idle(ParamAt(hooks, p, i))
    ensures var (p1, n) := Befores(hooks, i, ParamAt(hooks, p, i));
      && i < n <= |hooks| && p1 == ParamAt(hooks, p, n) && Proper(p1)
      && (forall k :: i <= k < n ==> Idle(ParamAt(hooks, p, k)))
      && (p1.returnEarly || (n == |hooks| && Idle(p1)))
    decreases |hooks| - i
  {
    var q := ParamAt(hooks, p, i);
    ApplyAllProper(q, hooks[i].before(q).sets);
    var q' := BeforeStep(hooks[i], q);
    assert q' == ParamAt(hooks, p, i + 1);
    if !q'.returnEarly {
      assert Idle(q');
      if i + 1 < |hooks| {
        PrefixRuns(hooks, p, i + 1);
      }
    }
  }

  /** A before-hook that throws has no say in the outcome: nothing is pending after it. */
  lemma {:induction false} ThrowingBeforeIsIdle(h: Hook, p: Param)
    requires Idle(p) && h.before(p).throws
    ensures Idle(BeforeStep(h, p))
    ensures var p', b := BeforeStep(h, p), h.before(p); p'.thisObject == b.thisObject && p'.args == b.args && p'.world == b.world
  {
  }

  /** A throwing after-hook leaves result and throwable as they were before it. */
  lemma {:induction false} ThrowingAfterKeepsOutcome(h: Hook, p: Param)
    requires Proper(p)
    ensures Proper(AfterStep(h, p))
    ensures h.after(p).throws ==> AfterStep(h, p).result == p.result && AfterStep(h, p).throwable == p.throwable
  {
    ApplyAllProper(p, h.after(p).sets);
  }

  lemma {:induction false} AftersProper(hooks: seq<Hook>, n: nat, p: Param)
    requires n <= |hooks| && Proper(p)
    ensures Proper(Afters(hooks, n, p))
  {
    if n > 0 {
      ThrowingAfterKeepsOutcome(hooks[n - 1], p);
      AftersProper(hooks, n - 1, AfterStep(hooks[n - 1], p));
    }
  }

  /** The outcome that this throwable and this result mean for the caller: a ClassCast exactly of an
      uncastable result with no throwable. */
  ghost predicate EndsAs(outcome: Outcome, throwable: Option<Throwable>, result: Option<Value>, castable: Value -> bool) {
    match outcome
    case Exception(t) => throwable == Some(t)
    case ClassCast(v) => throwable == None && result == Some(v) && !castable(v)
    case Finished(r) => throwable == None && result == r && (r.Some? ==> castable(r.value))
  }

  /** A run of an after-hook on q that leaves the call with this outcome: what it sets last, without
      throwing, or else what was there before. */
  ghost predicate Decides(b: Behaviour, q: Param, outcome: Outcome, castable: Value -> bool) {
    if b.throws || b.sets == [] then EndsAs(outcome, q.throwable, q.result, castable)
    else match b.sets[|b.sets| - 1]
      case SetResult(v) => EndsAs(outcome, None, v, castable)
      case SetThrowable(t) => EndsAs(outcome, t, None, castable)
  }

  lemma {:induction false} BeforesProper(hooks: seq<Hook>, p: Param)
    requires hooks != [] && Idle(p)
    ensures var p1 := Befores(hooks, 0, p).0; Proper(p1) && forall call, w :: Proper(Called(p1, call, w))
  {
    assert ParamAt(hooks, p, 0) == p;
    PrefixRuns(hooks, p, 0);
  }

  lemma {:induction false} AftersButFirst(hooks: seq<Hook>, n: nat, p: Param)
    requires 0 < n <= |hooks|
    ensures Afters(hooks, n, p) == AfterStep(hooks[0], Afters(hooks[1..], n - 1, p))
  {
    hide AfterStep;
    if n == 1 {
      assert Afters(hooks, 0, AfterStep(hooks[0], p)) == AfterStep(hooks[0], p);
    } else {
      AftersButFirst(hooks, n - 1, AfterStep(hooks[n - 1], p));
      assert hooks[1..][n - 2] == hooks[n - 1];
    }
  }

  lemma {:induction false} StepDecides(h: Hook, q: Param, castable: Value -> bool)
    requires Proper(q)
    ensures Decides(h.after(q), q, Finish(AfterStep(h, q), castable), castable) && AfterStep(h, q).world == h.after(q).world
  {
    ApplyAllProper(q, h.after(q).sets);
  }

  /** The first hook, the one of highest priority, has the last word: whatever its after-hook sets
      without throwing is the outcome. */
  lemma {:induction false} FirstHookDecides(hooks: seq<Hook>, n: nat, p: Param, castable: Value -> bool) returns (q: Param)
    requires 0 < n <= |hooks| && Proper(p)
    ensures q == Afters(hooks[1..], n - 1, p) && Proper(q) && Afters(hooks, n, p) == AfterStep(hooks[0], q)
    ensures Decides(hooks[0].after(q), q, Finish(Afters(hooks, n, p), castable), castable)
    ensures Afters(hooks, n, p).world == hooks[0].after(q).world
  {
    hide Decides;
    q := Afters(hooks[1..], n - 1, p);
    AftersProper(hooks[1..], n - 1, p);
    AftersButFirst(hooks, n, p);
    StepDecides(hooks[0], q, castable);
  }

  /** A hook that neither sets an outcome nor touches arguments and world. */
  ghost predicate Passive(h: Hook) {
    && (forall p: Param :: var b := h.before(p); b.sets == [] && b.args == p.args && b.thisObject == p.thisObject && b.world == p.world)
    && (forall p: Param :: var b := h.after(p); b.sets == [] && b.args == p.args && b.thisObject == p.thisObject && b.world == p.world)
  }

  lemma {:induction false} PassiveSteps(h: Hook, p: Param)
    requires Passive(h)
    ensures Idle(p) ==> BeforeStep(h, p) == p
    ensures Proper(p) && p.returnEarly ==> AfterStep(h, p) == p
  {
  }

  lemma {:induction false} PassiveBefores(hooks: seq<Hook>, i: nat, p: Param)
    requires i < |hooks| && (forall h :: h in hooks ==> Passive(h)) && Idle(p)
    ensures Befores(hooks, i, p) == (p, |hooks|)
    decreases |hooks| - i
  {
    PassiveSteps(hooks[i], p);
    if i + 1 < |hooks| {
      PassiveBefores(hooks, i + 1, p);
    }
  }

  lemma {:induction false} PassiveAfters(hooks: seq<Hook>, n: nat, p: Param)
    requires n <= |hooks| && (forall h :: h in hooks ==> Passive(h)) && Proper(p) && p.returnEarly
    ensures Afters(hooks, n, p) == p
  {
    if n > 0 {
      PassiveSteps(hooks[n - 1], p);
      PassiveAfters(hooks, n - 1, p);
    }
  }

  /** Passive hooks, throwing or not, are invisible: the caller gets what the original gives on the
      caller's own arguments. */
  lemma {:induction false} PassiveHooksAreInvisible(hooks: seq<Hook>, original: Original, p: Param)
    requires hooks != [] && (forall h :: h in hooks ==> Passive(h)) && Idle(p)
    ensures var (p1, n) := Befores(hooks, 0, p);
      && p1 == p && n == |hooks|
      && var (call, w) := original(p.thisObject, p.args, p.world);
      !call.Refused? ==> Afters(hooks, n, Called(p1, call, w)) == Called(p, call, w)
  {
    PassiveBefores(hooks, 0, p);
    var (call, w) := original(p.thisObject, p.args, p.world);
    if !call.Refused? {
      PassiveAfters(hooks, |hooks|, Called(p, call, w));
    }
  }
}
