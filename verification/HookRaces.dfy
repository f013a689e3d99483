/** hookMethod beside unhookMethod: any number of threads, in any interleaving of their atomic steps.
    hookMethod holds the lock of the records only while it looks for the record or makes it; it adds
    the callback after that. unhookMethod holds the lock all along. */
module HookRaces {

  datatype Option<+T> = None | Some(value: T)

  /** A HookInfo: the method it was made for, and its set of callbacks. */
  datatype Info = Info(method_: nat, callbacks: set<nat>)

  /** Where a thread is: in hookMethod behind the lock, with the record that it found; in unhookMethod
      behind the removal; there, having found the set empty. */
  datatype Pc = Idle | Adding(info: nat, callback: nat) | Checking(info: nat) | Dropping(info: nat)

  /** hookRecords, every HookInfo ever made, the owner of the lock; live are the callbacks, by method,
      for which hookMethod has come to an end and unhookMethod has not been called since. */
  datatype State = State(records: map<nat, nat>, infos: seq<Info>, owner: Option<nat>, pcs: map<nat, Pc>, live: set<(nat, nat)>)

  /** hookMethod up to the end of its synchronized block, and its add; unhookMethod up to the removal,
      its look at the size, and the removal of the record. */
  datatype Event =
    | Hook(t: nat, m: nat, callback: nat)
    | Add(t: nat)
    | Unhook(t: nat, m: nat, callback: nat)
    | Check(t: nat)
    | Drop(t: nat)

  const Init := State(map[], [], None, map[], {})

  function PcOf(s: State, t: nat): Pc { if t in s.pcs then s.pcs[t] else Idle }

  predicate Enabled(s: State, e: Event) {
    match e
    case Hook(t, _, _) => PcOf(s, t).Idle? && s.owner.None?
    case Add(t) => PcOf(s, t).Adding? && PcOf(s, t).info < |s.infos|
    case Unhook(t, m, _) => PcOf(s, t).Idle? && s.owner.None? && (m in s.records ==> s.records[m] < |s.infos|)
    case Check(t) => PcOf(s, t).Checking? && PcOf(s, t).info < |s.infos|
    case Drop(t) => PcOf(s, t).Dropping? && PcOf(s, t).info < |s.infos|
  }

  function With(i: Info, c: nat): Info { i.(callbacks := i.callbacks + {c}) }
  function Without(i: Info, c: nat): Info { i.(callbacks := i.callbacks - {c}) }

  function Step(s: State, e: Event): State
    requires Enabled(s, e)
  {
    match e
    case Hook(t, m, c) =>
      if m in s.records then s.(pcs := s.pcs[t := Adding(s.records[m], c)])
      else s.(records := s.records[m := |s.infos|], infos := s.infos + [Info(m, {})], pcs := s.pcs[t := Adding(|s.infos|, c)])
    case Add(t) =>
      var i, c := PcOf(s, t).info, PcOf(s, t).callback;
      s.(infos := s.infos[i := With(s.infos[i], c)], pcs := s.pcs[t := Idle], live := s.live + {(s.infos[i].method_, c)})
    case Unhook(t, m, c) =>
      if m !in s.records then s.(live := s.live - {(m, c)})
      else
        var i := s.records[m];
        s.(infos := s.infos[i := Without(s.infos[i], c)], owner := Some(t), pcs := s.pcs[t := Checking(i)], live := s.live - {(m, c)})
    case Check(t) =>
      var i := PcOf(s, t).info;
      if s.infos[i].callbacks == {} then s.(pcs := s.pcs[t := Dropping(i)]) else s.(owner := None, pcs := s.pcs[t := Idle])
    case Drop(t) =>
      s.(records := s.records - {s.infos[PcOf(s, t).info].method_}, owner := None, pcs := s.pcs[t := Idle])
  }

  predicate RunOk(s: State, events: seq<Event>)
    decreases |events|
  {
    events != [] ==> Enabled(s, events[0]) && RunOk(Step(s, events[0]), events[1..])
  }

  function Run(s: State, events: seq<Event>): State
    requires RunOk(s, events)
    decreases |events|
  {
    if events == [] then s else Run(Step(s, events[0]), events[1..])
  }

  // ----- what always holds -----

  /** The callback is in the set that the bridge runs for the method. */
  predicate Registered(s: State, m: nat, c: nat) {
    m in s.records && s.records[m] < |s.infos| && c in s.infos[s.records[m]].callbacks
  }

  ghost predicate RecordsOk(s: State) {
    forall m :: m in s.records ==> s.records[m] < |s.infos| && s.infos[s.records[m]].method_ == m
  }

  /** The thread's record exists, and one that is about to be dropped is the current one. */
  ghost predicate PcOk(s: State, t: nat) {
    match PcOf(s, t)
    case Idle => s.owner != Some(t)
    case Adding(i, _) => i < |s.infos| && s.owner != Some(t)
    case Checking(i) => s.owner == Some(t) && Current(s, i)
    case Dropping(i) => s.owner == Some(t) && Current(s, i)
  }

  predicate Current(s: State, i: nat) {
    i < |s.infos| && s.infos[i].method_ in s.records && s.records[s.infos[i].method_] == i
  }

  /** Only live callbacks are registered. */
  ghost predicate OnlyLive(s: State) {
    forall m: nat, c: nat :: Registered(s, m, c) ==> (m, c) in s.live
  }

  ghost predicate Inv(s: State) {
    RecordsOk(s) && (forall t: nat :: PcOk(s, t)) && OnlyLive(s)
  }

  lemma InitInv()
    ensures Inv(Init) && AllRegistered(Init) && Undisturbed(Init)
  {
  }

  lemma {:induction false} StepKeeps(s: State, e: Event)
    requires Inv(s) && Enabled(s, e)
    ensures Inv(Step(s, e))
  {
    var s' := Step(s, e);
    assert PcOk(s, e.t);
    assert RecordsOk(s');
    forall t: nat ensures PcOk(s', t) {
      assert PcOk(s, t);
    }
    forall m: nat, c: nat | Registered(s', m, c) ensures (m, c) in s'.live {
      assert Registered(s, m, c) || (m, c) in s'.live;
    }
  }

  // ----- when a callback is lost -----

  /** Every callback added and not removed since is registered. */
  ghost predicate AllRegistered(s: State) {
    forall m, c :: (m, c) in s.live ==> Registered(s, m, c)
  }

  /** The step leaves a live callback unregistered: an add to a record that has been dropped, unless
      the current one has the callback; or the drop of a record that has got a callback again. */
  predicate Loses(s: State, e: Event)
    requires Enabled(s, e)
  {
    match e
    case Add(t) =>
      var i, c := PcOf(s, t).info, PcOf(s, t).callback;
      !Current(s, i) && !Registered(s, s.infos[i].method_, c)
    case Drop(t) => s.infos[PcOf(s, t).info].callbacks != {}
    case _ => false
  }

  lemma {:induction false} StepExact(s: State, e: Event)
    requires Inv(s) && Enabled(s, e) && AllRegistered(s)
    ensures AllRegistered(Step(s, e)) <==> !Loses(s, e)
  {
    var s' := Step(s, e);
    assert PcOk(s, e.t);
    if Loses(s, e) {
      var i := PcOf(s, e.t).info;
      var m := s.infos[i].method_;
      if e.Add? {
        assert (m, PcOf(s, e.t).callback) in s'.live && !Registered(s', m, PcOf(s, e.t).callback);
      } else {
        var c :| c in s.infos[i].callbacks;
        assert Registered(s, m, c) && !Registered(s', m, c);
      }
    } else {
      forall m, c | (m, c) in s'.live ensures Registered(s', m, c) {
        assert (m, c) in s.live ==> Registered(s, m, c);
      }
    }
  }

  ghost predicate AlwaysRegistered(s: State, events: seq<Event>)
    requires RunOk(s, events)
    decreases |events|
  {
    AllRegistered(s) && (events != [] ==> AlwaysRegistered(Step(s, events[0]), events[1..]))
  }

  predicate NothingLost(s: State, events: seq<Event>)
    requires RunOk(s, events)
    decreases |events|
  {
    events != [] ==> !Loses(s, events[0]) && NothingLost(Step(s, events[0]), events[1..])
  }

  /** In every interleaving: all live callbacks are registered at every moment if and only if no step
      loses one. */
  lemma {:induction false} RegisteredExactly(s: State, events: seq<Event>)
    requires Inv(s) && AllRegistered(s) && RunOk(s, events)
    ensures AlwaysRegistered(s, events) <==> NothingLost(s, events)
    decreases |events|
  {
    hide Inv, AllRegistered, Loses, Enabled, Step;
    if events != [] {
      StepExact(s, events[0]);
      StepKeeps(s, events[0]);
      if !Loses(s, events[0]) {
        RegisteredExactly(Step(s, events[0]), events[1..]);
      } else {
        NotAtStart(Step(s, events[0]), events[1..]);
      }
    }
  }

  lemma NotAtStart(s: State, events: seq<Event>)
    requires RunOk(s, events) && !AllRegistered(s)
    ensures !AlwaysRegistered(s, events)
  {
  }

  // ----- calls that do not overlap -----

  /** No unhookMethod starts while a hookMethod of the same method is between its lock and its add. */
  ghost predicate Apart(s: State, e: Event)
    requires Enabled(s, e)
  {
    e.Unhook? && e.m in s.records ==> forall t: nat :: PcOf(s, t).Adding? ==> PcOf(s, t).info != s.records[e.m]
  }

  ghost predicate AllApart(s: State, events: seq<Event>)
    requires RunOk(s, events)
    decreases |events|
  {
    events != [] ==> Apart(s, events[0]) && AllApart(Step(s, events[0]), events[1..])
  }

  /** Then whoever adds has the current record, nobody adds to one that may be dropped, and one that is
      dropped is empty. */
  ghost predicate Undisturbed(s: State) {
    && (forall t: nat :: PcOf(s, t).Adding? ==> Current(s, PcOf(s, t).info))
    && (forall t: nat, u: nat :: PcOf(s, t).Adding? && Unhooking(s, u) ==> PcOf(s, t).info != PcOf(s, u).info)
    && (forall t: nat :: PcOf(s, t).Dropping? && PcOf(s, t).info < |s.infos| ==> s.infos[PcOf(s, t).info].callbacks == {})
  }

  predicate Unhooking(s: State, t: nat) { PcOf(s, t).Checking? || PcOf(s, t).Dropping? }

  lemma {:induction false} ApartKeeps(s: State, e: Event)
    requires Inv(s) && Undisturbed(s) && Enabled(s, e) && Apart(s, e)
    ensures Undisturbed(Step(s, e)) && !Loses(s, e)
  {
    var s' := Step(s, e);
    assert PcOk(s, e.t);
    forall t: nat | PcOf(s', t).Adding? ensures Current(s', PcOf(s', t).info) {
      StaysCurrent(s, e, t);
    }
    forall t: nat, u: nat | PcOf(s', t).Adding? && Unhooking(s', u) ensures PcOf(s', t).info != PcOf(s', u).info {
      StaySeparate(s, e, t, u);
    }
    forall t: nat | PcOf(s', t).Dropping? && PcOf(s', t).info < |s'.infos| ensures s'.infos[PcOf(s', t).info].callbacks == {} {
      StaysEmpty(s, e, t);
    }
    hide Step, Inv, Apart, Current, Unhooking;
  }

  lemma {:induction false} StaysCurrent(s: State, e: Event, t: nat)
    requires Inv(s) && Undisturbed(s) && Enabled(s, e) && PcOf(Step(s, e), t).Adding?
    ensures Current(Step(s, e), PcOf(Step(s, e), t).info)
  {
    hide OnlyLive;
    assert PcOk(s, t) && PcOk(s, e.t);
  }

  lemma {:induction false} StaySeparate(s: State, e: Event, t: nat, u: nat)
    requires Inv(s) && Undisturbed(s) && Enabled(s, e) && Apart(s, e)
    requires PcOf(Step(s, e), t).Adding? && Unhooking(Step(s, e), u)
    ensures PcOf(Step(s, e), t).info != PcOf(Step(s, e), u).info
  {
    hide OnlyLive;
    assert PcOk(s, t) && PcOk(s, u) && PcOk(s, e.t);
  }

  lemma {:induction false} StaysEmpty(s: State, e: Event, t: nat)
    requires Inv(s) && Undisturbed(s) && Enabled(s, e)
    requires PcOf(Step(s, e), t).Dropping? && PcOf(Step(s, e), t).info < |Step(s, e).infos|
    ensures Step(s, e).infos[PcOf(Step(s, e), t).info].callbacks == {}
  {
    hide OnlyLive;
    assert PcOk(s, t) && PcOk(s, e.t);
  }

  /** So no callback is ever lost in such a run. */
  lemma {:induction false} ApartLosesNothing(s: State, events: seq<Event>)
    requires Inv(s) && Undisturbed(s) && AllRegistered(s) && RunOk(s, events) && AllApart(s, events)
    ensures AlwaysRegistered(s, events)
    decreases |events|
  {
    hide Inv, AllRegistered, Loses, Enabled, Step, Undisturbed, Apart;
    if events != [] {
      StepExact(s, events[0]);
      StepKeeps(s, events[0]);
      ApartKeeps(s, events[0]);
      ApartLosesNothing(Step(s, events[0]), events[1..]);
    }
  }

  /** Both theorems for the runs from the start. */
  lemma {:induction false} EveryRun(events: seq<Event>)
    requires RunOk(Init, events)
    ensures AlwaysRegistered(Init, events) <==> NothingLost(Init, events)
    ensures AllApart(Init, events) ==> AlwaysRegistered(Init, events)
  {
    InitInv();
    RegisteredExactly(Init, events);
    if AllApart(Init, events) {
      ApartLosesNothing(Init, events);
    }
  }

  // ----- two runs that lose a callback -----

  /** Thread 1 has found the record of method 7 when thread 0 takes the last callback out and drops it;
      the callback 2 of thread 1 goes into the dropped record. */
  lemma LostToDroppedRecord()
    ensures var events := [Hook(0, 7, 1), Add(0), Hook(1, 7, 2), Unhook(0, 7, 1), Check(0), Drop(0), Add(1)];
      RunOk(Init, events) && (7, 2) in Run(Init, events).live && !Registered(Run(Init, events), 7, 2)
  {
  }

  /** Or it comes between the look at the size and the drop. */
  lemma LostToDrop()
    ensures var events := [Hook(0, 7, 1), Add(0), Hook(1, 7, 2), Unhook(0, 7, 1), Check(0), Add(1), Drop(0)];
      RunOk(Init, events) && (7, 2) in Run(Init, events).live && !Registered(Run(Init, events), 7, 2)
  {
  }
}
