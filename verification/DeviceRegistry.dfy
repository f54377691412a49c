/**
  The registry of bus-mapped devices under concurrent look-up and registration. A link with a
  numeric base looks its canonical name up, tries to register it if that fails and looks it up
  again if that fails, too; only the operations on the registry itself are atomic.
*/
module DeviceRegistry {
  import opened Wrappers
  import opened LinkNumbers

  /** A `DevBusMappedDev`; `id` stands for the allocated struct and for the mutex created with it. */
  datatype Dev = Dev(id: nat, name: string, base: nat)

  /** `Link`: a link with a numeric base; `User`: a call of `devBusMappedRegister` by the application. */
  datatype Kind = Link | User

  datatype Call = Call(kind: Kind, name: string, base: nat)

  /** `failed`: an allocation of this call was refused. */
  datatype Pc =
    | Idle
    | Find1(call: Call)
    | Alloc(call: Call)
    | Add(call: Call, dev: Dev)
    | Release(call: Call, dev: Dev, failed: bool)
    | Find2(call: Call, failed: bool)
    | Done(call: Call, result: Option<Dev>, failed: bool)

  datatype State = State(
    reg: map<string, Dev>,
    threads: seq<Pc>,
    next: nat,            // ids from here on are unused
    freed: set<nat>,
    calls: set<Call>)     // all calls so far

  /** `Go(ok)`: the next step of a call; `ok` says whether memory is available for it. */
  datatype Action = Begin(call: Call) | Go(ok: bool)

  datatype Step = Step(i: nat, act: Action)

  predicate Enabled(s: State, st: Step) {
    && st.i < |s.threads|
    && match st.act
       case Begin(c) => (s.threads[st.i].Idle? || s.threads[st.i].Done?) && (c.kind.Link? ==> c.name == HexName(c.base))
       case Go(ok) => !s.threads[st.i].Idle? && !s.threads[st.i].Done?
  }

  function Find(reg: map<string, Dev>, name: string): Option<Dev> {
    if name in reg then Some(reg[name]) else None
  }

  /** What a call does when `devBusMappedRegister` returns a null pointer. */
  function Refused(c: Call, failed: bool): Pc {
    if c.kind.Link? then Find2(c, failed) else Done(c, None, failed)
  }

  function Goto(s: State, i: nat, pc: Pc): State
    requires i < |s.threads|
  {
    s.(threads := s.threads[i := pc])
  }

  function Apply(s: State, st: Step): State
    requires Enabled(s, st)
  {
    match st.act
    case Begin(c) => Goto(s.(calls := s.calls + {c}), st.i, if c.kind.Link? then Find1(c) else Alloc(c))
    case Go(ok) =>
      match s.threads[st.i]
      case Find1(c) =>
        Goto(s, st.i, if c.name in s.reg then Done(c, Some(s.reg[c.name]), false) else Alloc(c))
      case Alloc(c) =>
        if ok then Goto(s.(next := s.next + 1), st.i, Add(c, Dev(s.next, c.name, c.base)))
        else Goto(s, st.i, Refused(c, true))
      case Add(c, d) =>
        if ok && c.name !in s.reg then Goto(s.(reg := s.reg[c.name := d]), st.i, Done(c, Some(d), false))
        else Goto(s, st.i, Release(c, d, c.name !in s.reg))
      case Release(c, d, failed) => Goto(s.(freed := s.freed + {d.id}), st.i, Refused(c, failed))
      case Find2(c, failed) => Goto(s, st.i, Done(c, Find(s.reg, c.name), failed))
  }

  // ---------------------------------------------------------------- invariant

  predicate Owns(pc: Pc) {
    pc.Add? || pc.Release?
  }

  ghost predicate EntriesOk(s: State) {
    && (forall n <- s.reg :: s.reg[n].name == n && s.reg[n].id < s.next && s.reg[n].id !in s.freed)
    && (forall m, n | m in s.reg && n in s.reg && m != n :: s.reg[m].id != s.reg[n].id)
    && (forall id <- s.freed :: id < s.next)
    && (forall n <- s.reg :: exists k :: Call(k, n, s.reg[n].base) in s.calls)
  }

  /** A struct of a thread is in no entry. */
  ghost predicate Private(s: State, i: nat)
    requires i < |s.threads|
  {
    Owns(s.threads[i]) ==>
      && s.threads[i].dev.id < s.next && s.threads[i].dev.id !in s.freed
      && (forall n <- s.reg :: s.reg[n].id != s.threads[i].dev.id)
  }

  /** The struct a call has made: one which it still has, or which a call of the application has returned. */
  function Made(pc: Pc): Option<nat> {
    if Owns(pc) then Some(pc.dev.id)
    else if pc.Done? && pc.call.kind.User? && pc.result.Some? then Some(pc.result.value.id)
    else None
  }

  /** No two calls have made one struct, and a struct which is not yet, or not, in the registry is in no entry. */
  ghost predicate OwnersOk(s: State) {
    && (forall i | 0 <= i < |s.threads| :: Private(s, i))
    && (forall i, j | 0 <= i < j < |s.threads| :: Apart(s.threads[i], s.threads[j]))
  }

  predicate Apart(p: Pc, q: Pc) {
    Made(p).Some? ==> Made(p) != Made(q)
  }

  /** Each struct ever allocated is in the registry, with a call which has not finished, or released. */
  ghost predicate NothingLost(s: State) {
    forall id: nat | id < s.next :: Somewhere(s, id)
  }

  ghost predicate Somewhere(s: State, id: nat) {
    || id in s.freed
    || (exists n <- s.reg :: s.reg[n].id == id)
    || (exists i :: 0 <= i < |s.threads| && Owns(s.threads[i]) && s.threads[i].dev.id == id)
  }

  predicate PcOk(reg: map<string, Dev>, calls: set<Call>, pc: Pc) {
    && (!pc.Idle? ==> pc.call in calls && (pc.call.kind.Link? ==> pc.call.name == HexName(pc.call.base)))
    && (Owns(pc) ==> pc.dev.name == pc.call.name && pc.dev.base == pc.call.base)
    && (pc.Find1? ==> pc.call.kind.Link?)
    && (pc.Release? && !pc.failed ==> pc.call.name in reg)
    && (pc.Find2? ==> pc.call.kind.Link? && (!pc.failed ==> pc.call.name in reg))
    && (pc.Done? ==>
          && (pc.result.Some? ==> pc.call.name in reg && reg[pc.call.name] == pc.result.value)
          && (pc.result.Some? && pc.call.kind.User? ==> pc.result.value.base == pc.call.base)
          && (pc.result.None? && !pc.failed ==> pc.call.kind.User? && pc.call.name in reg))
  }

  ghost predicate PcsOk(s: State) {
    forall i | 0 <= i < |s.threads| :: PcOk(s.reg, s.calls, s.threads[i])
  }

  ghost predicate CallsOk(s: State) {
    forall c <- s.calls :: c.kind.Link? ==> c.name == HexName(c.base)
  }

  ghost predicate Inv(s: State) {
    EntriesOk(s) && OwnersOk(s) && PcsOk(s) && CallsOk(s) && NothingLost(s)
  }

  ghost predicate Initial(s: State) {
    && s.reg == map[] && s.next == 0 && s.freed == {} && s.calls == {}
    && forall i | 0 <= i < |s.threads| :: s.threads[i].Idle?
  }

  /** Entries are added, never removed or replaced. */
  predicate Grows(reg: map<string, Dev>, reg': map<string, Dev>) {
    forall n <- reg :: n in reg' && reg'[n] == reg[n]
  }

  lemma PcStays(reg: map<string, Dev>, reg': map<string, Dev>, calls: set<Call>, calls': set<Call>, pc: Pc)
    requires PcOk(reg, calls, pc) && Grows(reg, reg') && calls <= calls'
    ensures PcOk(reg', calls', pc)
  {
  }

  lemma StepGrows(s: State, st: Step)
    requires Enabled(s, st)
    ensures Grows(s.reg, Apply(s, st).reg) && s.calls <= Apply(s, st).calls
  {
  }

  /** A new entry is that of the thread which made the step. */
  lemma NewEntry(s: State, st: Step, n: string)
    requires Inv(s) && Enabled(s, st) && n in Apply(s, st).reg && n !in s.reg
    ensures var pc := s.threads[st.i];
      pc.Add? && pc.call in s.calls && pc.call.name == n && pc.call.base == pc.dev.base && Apply(s, st).reg[n] == pc.dev
  {
    assert PcOk(s.reg, s.calls, s.threads[st.i]);
  }

  lemma StepKeepsEntries(s: State, st: Step)
    requires Inv(s) && Enabled(s, st)
    ensures EntriesOk(Apply(s, st)) && Grows(s.reg, Apply(s, st).reg) && s.calls <= Apply(s, st).calls
  {
    var s', pc := Apply(s, st), s.threads[st.i];
    assert PcOk(s.reg, s.calls, pc) && Private(s, st.i);
    StepGrows(s, st);
    forall n | n in s'.reg ensures exists k :: Call(k, n, s'.reg[n].base) in s'.calls {
      if n in s.reg {
        var k :| Call(k, n, s.reg[n].base) in s.calls;
        assert Call(k, n, s'.reg[n].base) in s'.calls;
      } else {
        NewEntry(s, st, n);
        assert Call(pc.call.kind, n, s'.reg[n].base) in s'.calls;
      }
    }
  }

  lemma StaysPrivate(s: State, st: Step, i: nat)
    requires Inv(s) && Enabled(s, st) && i < |s.threads|
    ensures Private(Apply(s, st), i)
  {
    assert Private(s, i);
    if i < st.i {
      assert Apart(s.threads[i], s.threads[st.i]);
    } else if st.i < i {
      assert Apart(s.threads[st.i], s.threads[i]);
    }
  }

  /** What has been made is older than what is made next. */
  lemma MadeBefore(s: State, i: nat)
    requires Inv(s) && i < |s.threads| && Made(s.threads[i]).Some?
    ensures Made(s.threads[i]).value < s.next
  {
    assert Private(s, i) && PcOk(s.reg, s.calls, s.threads[i]);
  }

  /** A step makes nothing, or something new. */
  lemma MadeNew(s: State, st: Step)
    requires Inv(s) && Enabled(s, st)
    ensures var pc, pc' := s.threads[st.i], Apply(s, st).threads[st.i];
      Made(pc').None? || Made(pc') == Made(pc) || Made(pc') == Some(s.next)
  {
    assert PcOk(s.reg, s.calls, s.threads[st.i]);
  }

  lemma StayApart(s: State, st: Step, i: nat, j: nat)
    requires Inv(s) && Enabled(s, st) && i < j < |s.threads|
    ensures Apart(Apply(s, st).threads[i], Apply(s, st).threads[j])
  {
    assert Apart(s.threads[i], s.threads[j]);
    MadeNew(s, st);
    if i != st.i && Made(s.threads[i]).Some? {
      MadeBefore(s, i);
    }
    if j != st.i && Made(s.threads[j]).Some? {
      MadeBefore(s, j);
    }
  }

  lemma StepKeepsOwners(s: State, st: Step)
    requires Inv(s) && Enabled(s, st)
    ensures OwnersOk(Apply(s, st))
  {
    var s' := Apply(s, st);
    forall i | 0 <= i < |s.threads| ensures Private(s', i) {
      StaysPrivate(s, st, i);
    }
    forall i, j | 0 <= i < j < |s.threads| ensures Apart(s'.threads[i], s'.threads[j]) {
      StayApart(s, st, i, j);
    }
  }

  lemma OwnedStays(s: State, st: Step, i: nat)
    requires Inv(s) && Enabled(s, st) && i < |s.threads| && Owns(s.threads[i])
    ensures Somewhere(Apply(s, st), s.threads[i].dev.id)
  {
    var s' := Apply(s, st);
    var pc, id := s.threads[i], s.threads[i].dev.id;
    if Owns(s'.threads[i]) {
      assert s'.threads[i].dev.id == id;
    } else if pc.Add? {
      assert s'.reg[pc.call.name].id == id;
    }
  }

  lemma StepLosesNothing(s: State, st: Step)
    requires Inv(s) && Enabled(s, st)
    ensures NothingLost(Apply(s, st))
  {
    var s' := Apply(s, st);
    StepGrows(s, st);
    forall id: nat | id < s'.next ensures Somewhere(s', id) {
      if id == s.next {
        assert Owns(s'.threads[st.i]) && s'.threads[st.i].dev.id == id;
      } else if i :| 0 <= i < |s.threads| && Owns(s.threads[i]) && s.threads[i].dev.id == id {
        OwnedStays(s, st, i);
      } else if n :| n in s.reg && s.reg[n].id == id {
        assert n in s'.reg && s'.reg[n] == s.reg[n];
      } else {
        assert Somewhere(s, id);
      }
    }
  }

  lemma OwnPc(s: State, st: Step)
    requires Enabled(s, st) && PcOk(s.reg, s.calls, s.threads[st.i])
    ensures var s' := Apply(s, st); PcOk(s'.reg, s'.calls, s'.threads[st.i])
  {
  }

  lemma StepKeepsPcs(s: State, st: Step)
    requires Inv(s) && Enabled(s, st)
    ensures PcsOk(Apply(s, st))
  {
    var s' := Apply(s, st);
    StepKeepsEntries(s, st);
    forall i | 0 <= i < |s.threads| ensures PcOk(s'.reg, s'.calls, s'.threads[i]) {
      assert PcOk(s.reg, s.calls, s.threads[i]);
      if i == st.i {
        OwnPc(s, st);
      } else {
        PcStays(s.reg, s'.reg, s.calls, s'.calls, s.threads[i]);
      }
    }
  }

  lemma StepKeepsInv(s: State, st: Step)
    requires Inv(s) && Enabled(s, st)
    ensures Inv(Apply(s, st)) && Grows(s.reg, Apply(s, st).reg)
  {
    StepKeepsEntries(s, st);
    StepKeepsOwners(s, st);
    StepKeepsPcs(s, st);
    StepLosesNothing(s, st);
  }

  // ---------------------------------------------------------------- runs

  ghost predicate Run(s: State, steps: seq<Step>, s': State)
    decreases |steps|
  {
    if steps == [] then s == s'
    else Enabled(s, steps[0]) && Run(Apply(s, steps[0]), steps[1..], s')
  }

  lemma {:induction false} RunKeepsInv(s: State, steps: seq<Step>, s': State)
    requires Inv(s) && Run(s, steps, s')
    ensures Inv(s') && Grows(s.reg, s'.reg)
    decreases |steps|
  {
    if steps != [] {
      StepKeepsInv(s, steps[0]);
      RunKeepsInv(Apply(s, steps[0]), steps[1..], s');
    }
  }

  ghost predicate Reachable(s: State) {
    exists s0, steps :: Initial(s0) && Run(s0, steps, s)
  }

  lemma ReachableInv(s: State)
    requires Reachable(s)
    ensures Inv(s)
  {
    var s0, steps :| Initial(s0) && Run(s0, steps, s);
    RunKeepsInv(s0, steps, s);
  }

  // ---------------------------------------------------------------- what callers rely on

  predicate Got(s: State, i: nat, c: Call, d: Dev) {
    i < |s.threads| && s.threads[i].Done? && s.threads[i].call == c && s.threads[i].result == Some(d)
  }

  /** Whoever gets a device under a name gets the same struct and mutex, and it is never released. */
  lemma OneDevicePerName(s: State, i: nat, c: Call, d: Dev, j: nat, c': Call, d': Dev)
    requires Reachable(s) && Got(s, i, c, d) && Got(s, j, c', d')
    ensures c.name == c'.name ==> d == d'
    ensures c.name != c'.name ==> d.id != d'.id
    ensures d.id !in s.freed && d.name == c.name
  {
    ReachableInv(s);
    assert PcOk(s.reg, s.calls, s.threads[i]) && PcOk(s.reg, s.calls, s.threads[j]);
  }

  /** However two numeric bases are spelled: the same device if and only if the same number. */
  lemma NumbersMeet(s: State, i: nat, m: nat, d: Dev, j: nat, n: nat, d': Dev)
    requires Reachable(s) && Got(s, i, Call(Link, HexName(m), m), d) && Got(s, j, Call(Link, HexName(n), n), d')
    ensures d == d' <==> m == n
    ensures d.id == d'.id <==> m == n
  {
    OneDevicePerName(s, i, Call(Link, HexName(m), m), d, j, Call(Link, HexName(n), n), d');
    if HexName(m) == HexName(n) {
      NamesDiffer(m, n);
    }
  }

  /** A link ends without a device only if it was refused memory; losing the race is no reason. */
  lemma LinkFailsOnlyWithoutMemory(s: State, i: nat)
    requires Reachable(s) && i < |s.threads| && s.threads[i].Done?
    requires s.threads[i].call.kind.Link? && s.threads[i].result.None?
    ensures s.threads[i].failed
  {
    ReachableInv(s);
    assert PcOk(s.reg, s.calls, s.threads[i]);
  }

  /** Registration by the application fails only on a name in use, or without memory. */
  lemma UserFailsOnTakenName(s: State, i: nat)
    requires Reachable(s) && i < |s.threads| && s.threads[i].Done? && s.threads[i].result.None? && !s.threads[i].failed
    ensures s.threads[i].call.kind.User? && s.threads[i].call.name in s.reg
  {
    ReachableInv(s);
    assert PcOk(s.reg, s.calls, s.threads[i]);
  }

  /** A registration which succeeds has made the device itself: its base is the caller's, and no other call made it. */
  lemma UserGetsItsOwn(s: State, i: nat, c: Call, d: Dev, j: nat, c': Call, d': Dev)
    requires Reachable(s) && c.kind.User? && Got(s, i, c, d) && Got(s, j, c', d')
    ensures d.name == c.name && d.base == c.base
    ensures i != j && c'.kind.User? ==> d.id != d'.id && c.name != c'.name
  {
    ReachableInv(s);
    assert PcOk(s.reg, s.calls, s.threads[i]) && PcOk(s.reg, s.calls, s.threads[j]);
    assert i < j ==> Apart(s.threads[i], s.threads[j]);
    assert j < i ==> Apart(s.threads[j], s.threads[i]);
  }

  /** When all calls have returned, each struct ever allocated is registered or has been released, and never both. */
  lemma NoLeak(s: State, id: nat)
    requires Reachable(s) && id < s.next && forall i | 0 <= i < |s.threads| :: s.threads[i].Idle? || s.threads[i].Done?
    ensures id in s.freed <==> forall n <- s.reg :: s.reg[n].id != id
  {
    ReachableInv(s);
    assert Somewhere(s, id);
  }

  // ---------------------------------------------------------------- one call by itself

  /** A link whose device is there takes it and allocates nothing. */
  lemma LinkFinds(s: State, i: nat, n: nat) returns (steps: seq<Step>)
    requires i < |s.threads| && (s.threads[i].Idle? || s.threads[i].Done?) && HexName(n) in s.reg
    ensures var c := Call(Link, HexName(n), n);
      Run(s, steps, Goto(s.(calls := s.calls + {c}), i, Done(c, Some(s.reg[HexName(n)]), false)))
  {
    var c := Call(Link, HexName(n), n);
    var s1 := Apply(s, Step(i, Begin(c)));
    var s' := Apply(s1, Step(i, Go(true)));
    assert s' == Goto(s.(calls := s.calls + {c}), i, Done(c, Some(s.reg[HexName(n)]), false));
    steps := Then(Step(i, Go(true)), s1, [], s', s');
    steps := Then(Step(i, Begin(c)), s, steps, s1, s');
  }

  /** A link or a call of the application whose name is free makes the device. */
  lemma CallMakes(s: State, i: nat, c: Call) returns (steps: seq<Step>)
    requires i < |s.threads| && (s.threads[i].Idle? || s.threads[i].Done?) && c.name !in s.reg
    requires c.kind.Link? ==> c.name == HexName(c.base)
    ensures var d := Dev(s.next, c.name, c.base);
      Run(s, steps, Goto(s.(calls := s.calls + {c}, next := s.next + 1, reg := s.reg[c.name := d]), i,
                             Done(c, Some(d), false)))
  {
    var s1 := Apply(s, Step(i, Begin(c)));
    var s2 := if c.kind.Link? then Apply(s1, Step(i, Go(true))) else s1;
    var s3 := Apply(s2, Step(i, Go(true)));
    var s' := Apply(s3, Step(i, Go(true)));
    var d := Dev(s.next, c.name, c.base);
    assert s' == Goto(s.(calls := s.calls + {c}, next := s.next + 1, reg := s.reg[c.name := d]), i,
                      Done(c, Some(d), false));
    steps := Then(Step(i, Go(true)), s3, [], s', s');
    steps := Then(Step(i, Go(true)), s2, steps, s3, s');
    if c.kind.Link? {
      steps := Then(Step(i, Go(true)), s1, steps, s2, s');
    }
    steps := Then(Step(i, Begin(c)), s, steps, s1, s');
  }

  lemma RefusedSteps(s: State, i: nat, c: Call, struct: bool, rest: seq<Step>, s': State) returns (steps: seq<Step>)
    requires i < |s.threads| && s.threads[i] == Alloc(c) && c.name !in s.reg
    requires var s1 := if struct then s.(next := s.next + 1, freed := s.freed + {s.next}) else s;
      Run(Goto(s1, i, Refused(c, true)), rest, s')
    ensures Run(s, steps, s')
  {
    steps := rest;
    if struct {
      var d := Dev(s.next, c.name, c.base);
      var s1 := Goto(s.(next := s.next + 1), i, Add(c, d));
      var s2 := Goto(s.(next := s.next + 1), i, Release(c, d, true));
      var s3 := Goto(s.(next := s.next + 1, freed := s.freed + {s.next}), i, Refused(c, true));
      steps := Then(Step(i, Go(false)), s2, steps, s3, s');
      steps := Then(Step(i, Go(false)), s1, steps, s2, s');
      steps := Then(Step(i, Go(true)), s, steps, s1, s');
    } else {
      steps := Then(Step(i, Go(false)), s, steps, Goto(s, i, Refused(c, true)), s');
    }
  }

  /** A call which is refused the struct, or its mutex, leaves the registry alone and releases what it has. */
  lemma CallRefused(s: State, i: nat, c: Call, struct: bool) returns (steps: seq<Step>)
    requires i < |s.threads| && (s.threads[i].Idle? || s.threads[i].Done?) && c.name !in s.reg
    requires c.kind.Link? ==> c.name == HexName(c.base)
    ensures var s0 := s.(calls := s.calls + {c});
      Run(s, steps, Goto(if struct then s0.(next := s.next + 1, freed := s.freed + {s.next}) else s0, i,
                         Done(c, None, true)))
  {
    var s1 := Apply(s, Step(i, Begin(c)));
    var s2 := if c.kind.Link? then Apply(s1, Step(i, Go(true))) else s1;
    var s5 := if struct then s2.(next := s.next + 1, freed := s.freed + {s.next}) else s2;
    var s6 := Goto(s5, i, Refused(c, true));
    var s' := Goto(s5, i, Done(c, None, true));
    var s0 := s.(calls := s.calls + {c});
    assert s' == Goto(if struct then s0.(next := s.next + 1, freed := s.freed + {s.next}) else s0, i,
                      Done(c, None, true));
    steps := [];
    if c.kind.Link? {
      steps := Then(Step(i, Go(true)), s6, steps, s', s');
    }
    steps := RefusedSteps(s2, i, c, struct, steps, s');
    if c.kind.Link? {
      steps := Then(Step(i, Go(true)), s1, steps, s2, s');
    }
    steps := Then(Step(i, Begin(c)), s, steps, s1, s');
  }

  /** A call of the application whose name is taken leaves the registry alone and releases what it has allocated. */
  lemma UserGivesUp(s: State, i: nat, c: Call) returns (steps: seq<Step>)
    requires i < |s.threads| && (s.threads[i].Idle? || s.threads[i].Done?) && c.name in s.reg && c.kind.User?
    ensures Run(s, steps, Goto(s.(calls := s.calls + {c}, next := s.next + 1, freed := s.freed + {s.next}), i,
                                   Done(c, None, false)))
  {
    var s1 := Apply(s, Step(i, Begin(c)));
    var s2 := Apply(s1, Step(i, Go(true)));
    var s3 := Apply(s2, Step(i, Go(true)));
    var s' := Apply(s3, Step(i, Go(true)));
    assert s' == Goto(s.(calls := s.calls + {c}, next := s.next + 1, freed := s.freed + {s.next}), i,
                      Done(c, None, false));
    steps := Then(Step(i, Go(true)), s3, [], s', s');
    steps := Then(Step(i, Go(true)), s2, steps, s3, s');
    steps := Then(Step(i, Go(true)), s1, steps, s2, s');
    steps := Then(Step(i, Begin(c)), s, steps, s1, s');
  }

  /** The device of a numeric base is at that address, unless the application took the name for another. */
  lemma BaseIsTheNumber(s: State, i: nat, n: nat, d: Dev)
    requires Reachable(s) && Got(s, i, Call(Link, HexName(n), n), d)
    ensures d.base == n || Call(User, HexName(n), d.base) in s.calls
  {
    ReachableInv(s);
    assert PcOk(s.reg, s.calls, s.threads[i]);
    var k :| Call(k, HexName(n), d.base) in s.calls;
    if k.Link? {
      NamesDiffer(d.base, n);
    }
  }

  // ---------------------------------------------------------------- no call waits

  /** An upper bound for the steps a call still takes, whatever the other threads do. */
  function StepsLeft(pc: Pc): nat {
    match pc
    case Idle => 0
    case Find1(_) => 5
    case Alloc(_) => 4
    case Add(_, _) => 3
    case Release(_, _, _) => 2
    case Find2(_, _) => 1
    case Done(_, _, _) => 0
  }

  /** Each step of a call brings it closer to its end and leaves the other calls where they are. */
  lemma NoCallWaits(s: State, st: Step)
    requires Inv(s) && Enabled(s, st) && st.act.Go?
    ensures StepsLeft(Apply(s, st).threads[st.i]) < StepsLeft(s.threads[st.i])
    ensures forall j | 0 <= j < |s.threads| && j != st.i :: Apply(s, st).threads[j] == s.threads[j]
    ensures StepsLeft(s.threads[st.i]) == 0 <==> s.threads[st.i].Idle? || s.threads[st.i].Done?
  {
    assert PcOk(s.reg, s.calls, s.threads[st.i]);
  }

  /** A name which looks like a number can be taken for any other address. */
  lemma AliasedNumber(n: nat, b: nat) returns (s: State)
    ensures Reachable(s) && |s.threads| == 2
    ensures exists d :: Got(s, 1, Call(Link, HexName(n), n), d) && d.base == b
  {
    var c0, c1 := Call(User, HexName(n), b), Call(Link, HexName(n), n);
    var d := Dev(0, HexName(n), b);
    var s0 := State(map[], [Idle, Idle], 0, {}, {});
    var s1 := State(map[], [Alloc(c0), Idle], 0, {}, {c0});
    var s2 := State(map[], [Add(c0, d), Idle], 1, {}, {c0});
    var s3 := State(map[HexName(n) := d], [Done(c0, Some(d), false), Idle], 1, {}, {c0});
    var s4 := s3.(threads := [Done(c0, Some(d), false), Find1(c1)], calls := {c0, c1});
    s := s4.(threads := [Done(c0, Some(d), false), Done(c1, Some(d), false)]);
    var steps := Then(Step(1, Go(true)), s4, [], s, s);
    steps := Then(Step(1, Begin(c1)), s3, steps, s4, s);
    steps := Then(Step(0, Go(true)), s2, steps, s3, s);
    steps := Then(Step(0, Go(true)), s1, steps, s2, s);
    steps := Then(Step(0, Begin(c0)), s0, steps, s1, s);
    assert Initial(s0);
    assert Got(s, 1, c1, d);
  }

  lemma Then(st: Step, s: State, steps: seq<Step>, s1: State, s': State) returns (longer: seq<Step>)
    requires Enabled(s, st) && Apply(s, st) == s1 && Run(s1, steps, s')
    ensures Run(s, longer, s')
  {
    longer := [st] + steps;
    assert longer[1..] == steps;
  }
}
