/** The steps of one locked write to a register, by themselves and among those of others. */
module BusWrite {
  import opened BusMemory
  import opened BusAccess
  import opened BusRegister
  import opened BusLocking

  predicate Leads(h: Host, s: State, i: nat, act: Action, s': State) {
    Enabled(s, i, act) && Apply(h, s, i, act) == s'
  }

  /** A step in front of a run. */
  lemma Back(h: Host, s: State, i: nat, act: Action, s1: State, steps: seq<Step>, s': State) returns (longer: seq<Step>)
    requires Leads(h, s, i, act, s1) && Run(h, s1, steps, s')
    ensures Run(h, s, longer, s')
  {
    longer := [Step(i, act)] + steps;
    assert longer[1..] == steps;
  }

  lemma GotoOk(s: State, i: nat, pc: Pc)
    requires WellFormed(s) && i < |s.threads|
    requires pc.Idle? || pc.Unlock? || InDevice(s.devs[s.threads[i].dev], pc.op.reg)
    ensures WellFormed(Goto(s, i, pc))
  {
  }

  /** A thread which can begin a write. */
  predicate CanBegin(s: State, i: nat, op: Op) {
    && i < |s.threads| && s.threads[i].pc.Idle? && s.threads[i].dev < |s.mutexes| == |s.devs|
    && s.mutexes[s.threads[i].dev].Free?
    && InDevice(s.devs[s.threads[i].dev], op.reg) && Fits(s.mem, op.reg)
  }

  /** Thread `i` at `pc`, holding the mutex of its device. */
  function Holding(s: State, i: nat, pc: Pc): State
    requires i < |s.threads| && s.threads[i].dev < |s.mutexes|
  {
    Goto(s.(mutexes := s.mutexes[s.threads[i].dev := Held(i)]), i, pc)
  }

  lemma Begins(h: Host, s: State, i: nat, op: Op)
    requires WellFormed(s) && CanBegin(s, i, op)
    ensures Leads(h, s, i, Begin(op), Goto(s, i, Lock(op)))
  {
  }

  lemma Locks(h: Host, s: State, i: nat, op: Op)
    requires WellFormed(s) && CanBegin(s, i, op)
    ensures Leads(h, Goto(s, i, Lock(op)), i, Go, Holding(s, i, Fetch(op)))
  {
    GotoOk(s, i, Lock(op));
  }

  lemma Fetches(h: Host, s: State, i: nat, op: Op)
    requires WellFormed(s) && CanBegin(s, i, op)
    ensures Leads(h, Holding(s, i, Fetch(op)), i, Go,
      Holding(s, i, if op.masked then Modify(op, ReadReg(h, s.mem, op.reg)) else Store(op, op.value)))
  {
    GotoOk(s.(mutexes := s.mutexes[s.threads[i].dev := Held(i)]), i, Fetch(op));
  }

  lemma Merges(h: Host, s: State, i: nat, op: Op, v: bv32)
    requires WellFormed(s) && CanBegin(s, i, op)
    ensures Leads(h, Holding(s, i, Modify(op, v)), i, Go, Holding(s, i, Store(op, Merge(v, op.mask, op.value))))
  {
    GotoOk(s.(mutexes := s.mutexes[s.threads[i].dev := Held(i)]), i, Modify(op, v));
  }

  /** What a thread is going to store. */
  function Data(h: Host, s: State, op: Op): bv32
    requires Fits(s.mem, op.reg)
  {
    if op.masked then Merge(ReadReg(h, s.mem, op.reg), op.mask, op.value) else op.value
  }

  /** A thread inside its critical section which has computed what it is going to store. */
  function Ready(h: Host, s: State, i: nat, op: Op): State
    requires CanBegin(s, i, op)
  {
    Holding(s, i, Store(op, Data(h, s, op)))
  }

  lemma Prepare(h: Host, s: State, i: nat, op: Op, rest: seq<Step>, s': State) returns (steps: seq<Step>)
    requires WellFormed(s) && CanBegin(s, i, op) && Run(h, Ready(h, s, i, op), rest, s')
    ensures Run(h, s, steps, s')
  {
    Fetches(h, s, i, op);
    Locks(h, s, i, op);
    Begins(h, s, i, op);
    steps := rest;
    if op.masked {
      var v := ReadReg(h, s.mem, op.reg);
      Merges(h, s, i, op, v);
      steps := Back(h, Holding(s, i, Modify(op, v)), i, Go, Ready(h, s, i, op), steps, s');
      steps := Back(h, Holding(s, i, Fetch(op)), i, Go, Holding(s, i, Modify(op, v)), steps, s');
    } else {
      steps := Back(h, Holding(s, i, Fetch(op)), i, Go, Ready(h, s, i, op), steps, s');
    }
    steps := Back(h, Goto(s, i, Lock(op)), i, Go, Holding(s, i, Fetch(op)), steps, s');
    steps := Back(h, s, i, Begin(op), Goto(s, i, Lock(op)), steps, s');
  }

  /** The store of a thread which is ready for it. */
  function Stored(h: Host, s: State, i: nat, op: Op, data: bv32): State
    requires i < |s.threads| && Fits(s.mem, op.reg)
  {
    Goto(s.(mem := StoreReg(h, s.mem, op.reg, data), history := s.history + [Effect(h, op)]), i, Unlock)
  }

  lemma Stores(h: Host, s: State, i: nat, op: Op, data: bv32)
    requires WellFormed(s) && i < |s.threads| && s.threads[i].pc == Store(op, data) && Fits(s.mem, op.reg)
    ensures Leads(h, s, i, Go, Stored(h, s, i, op, data))
  {
  }

  lemma Unlocks(h: Host, s: State, i: nat, op: Op)
    requires WellFormed(s) && CanBegin(s, i, op)
    ensures Leads(h, Holding(s, i, Unlock), i, Go, s)
  {
    var d := s.threads[i].dev;
    GotoOk(s.(mutexes := s.mutexes[d := Held(i)]), i, Unlock);
    assert s.mutexes[d := Held(i)][d := Free] == s.mutexes;
    assert s.threads[i := s.threads[i].(pc := Unlock)][i := s.threads[i].(pc := Idle)] == s.threads;
  }

  /** The write is over: the memory has changed under the mask, and everything else is as it was. */
  function Written(h: Host, s: State, op: Op): State {
    s.(mem := MaskedWrite(s.mem, Effect(h, op)), history := s.history + [Effect(h, op)])
  }

  /**
    A write which nothing else interferes with: all steps of the routine together are the one masked
    write it was called for.
  */
  lemma WriteAlone(h: Host, s: State, i: nat, op: Op) returns (steps: seq<Step>)
    requires WellFormed(s) && CanBegin(s, i, op)
    ensures Run(h, s, steps, Written(h, s, op))
  {
    var data, s' := Data(h, s, op), Written(h, s, op);
    var ready := Ready(h, s, i, op);
    GotoOk(s.(mutexes := s.mutexes[s.threads[i].dev := Held(i)]), i, Store(op, data));
    StoreIsEffect(h, s.mem, op, data);
    Stores(h, ready, i, op, data);
    Unlocks(h, s', i, op);
    assert Stored(h, ready, i, op, data) == Holding(s', i, Unlock) by {
      assert ready.threads[i := ready.threads[i].(pc := Unlock)] == s.threads[i := s.threads[i].(pc := Unlock)];
    }
    steps := Back(h, Holding(s', i, Unlock), i, Go, s', [], s');
    steps := Back(h, ready, i, Go, Holding(s', i, Unlock), steps, s');
    steps := Prepare(h, s, i, op, steps, s');
  }

  /** A write whose read fails leaves everything as it was. */
  lemma RefusedAlone(h: Host, s: State, i: nat, op: Op) returns (steps: seq<Step>)
    requires WellFormed(s) && CanBegin(s, i, op) && op.masked
    ensures Run(h, s, steps, s) && Step(i, Refuse) in steps
  {
    Begins(h, s, i, op);
    Locks(h, s, i, op);
    Unlocks(h, s, i, op);
    GotoOk(s.(mutexes := s.mutexes[s.threads[i].dev := Held(i)]), i, Fetch(op));
    var fetching := Holding(s, i, Fetch(op));
    assert fetching.threads[i := fetching.threads[i].(pc := Unlock)] == s.threads[i := s.threads[i].(pc := Unlock)];
    assert Leads(h, fetching, i, Refuse, Holding(s, i, Unlock));
    steps := [Step(i, Begin(op)), Step(i, Go), Step(i, Refuse), Step(i, Go)];
    assert steps[1..] == [Step(i, Go), Step(i, Refuse), Step(i, Go)];
    assert steps[1..][1..] == [Step(i, Refuse), Step(i, Go)];
    assert steps[1..][1..][1..] == [Step(i, Go)] && steps[1..][1..][1..][1..] == [];
    assert Run(h, s, [], s);
    assert Run(h, Holding(s, i, Unlock), steps[1..][1..][1..], s);
    assert Run(h, fetching, steps[1..][1..], s);
    assert Run(h, Goto(s, i, Lock(op)), steps[1..], s);
  }

  // ---------------------------------------------------------------- what has been stored was asked for

  /** A write which has been begun. */
  predicate Begun(steps: seq<Step>, op: Op) {
    exists k :: 0 <= k < |steps| && steps[k].act == Begin(op)
  }

  /** What threads are about to write, and the stores so far. */
  ghost predicate AskedFor(h: Host, s: State, ops: set<Op>) {
    && (forall i | 0 <= i < |s.threads| ::
         s.threads[i].pc.Idle? || s.threads[i].pc.Unlock? || s.threads[i].pc.op in ops)
    && (forall p <- s.history :: exists op <- ops :: p == Effect(h, op))
  }

  lemma StepKeepsAsked(h: Host, s: State, i: nat, act: Action, ops: set<Op>)
    requires Enabled(s, i, act) && AskedFor(h, s, ops) && (act.Begin? ==> act.op in ops)
    ensures AskedFor(h, Apply(h, s, i, act), ops)
  {
    var s' := Apply(h, s, i, act);
    forall p | p in s'.history ensures exists op <- ops :: p == Effect(h, op) {
      if p !in s.history {
        assert p == Effect(h, s.threads[i].pc.op);
      }
    }
  }

  lemma {:induction false} RunKeepsAsked(h: Host, s: State, steps: seq<Step>, s': State, ops: set<Op>)
    requires Run(h, s, steps, s') && AskedFor(h, s, ops)
    requires forall st <- steps :: st.act.Begin? ==> st.act.op in ops
    ensures AskedFor(h, s', ops)
    decreases |steps|
  {
    if steps != [] {
      assert steps[0] in steps && forall st <- steps[1..] :: st in steps;
      StepKeepsAsked(h, s, steps[0].i, steps[0].act, ops);
      RunKeepsAsked(h, Apply(h, s, steps[0].i, steps[0].act), steps[1..], s', ops);
    }
  }

  function Ops(steps: seq<Step>): set<Op> {
    set st | st in steps && st.act.Begin? :: st.act.op
  }

  /** In every run, each store is the effect of some write which a record has begun. */
  lemma StoresAreAskedFor(h: Host, mem0: seq<bv8>, s: State, steps: seq<Step>, s': State, p: Patch)
    requires Initial(mem0, s) && Run(h, s, steps, s') && p in s'.history
    ensures exists op :: Begun(steps, op) && p == Effect(h, op)
  {
    RunKeepsAsked(h, s, steps, s', Ops(steps));
    var op :| op in Ops(steps) && p == Effect(h, op);
    var st :| st in steps && st.act == Begin(op);
    var k :| 0 <= k < |steps| && steps[k] == st;
  }

  // ---------------------------------------------------------------- reads without a lock

  /** The registers read in a run. */
  function Regs(steps: seq<Step>): seq<Reg> {
    if steps == [] then [] else RegOf(steps[0]) + Regs(steps[1..])
  }

  function RegOf(st: Step): seq<Reg> {
    if st.act.Read? then [st.act.reg] else []
  }

  /** What reads of these registers have returned, each after at least `n` stores. */
  predicate Answered(xs: seq<Sample>, regs: seq<Reg>, n: nat) {
    |xs| == |regs| && forall k | 0 <= k < |xs| :: xs[k].reg == regs[k] && xs[k].seen >= n
  }

  /** A read returns what the register holds now. */
  lemma ReadAnswers(h: Host, s: State, i: nat, act: Action) returns (xs: seq<Sample>)
    requires Enabled(s, i, act)
    ensures s.history <= Apply(h, s, i, act).history && Apply(h, s, i, act).samples == s.samples + xs
    ensures Answered(xs, RegOf(Step(i, act)), |s.history|)
    ensures act.Read? ==> xs[0].value == ReadReg(h, s.mem, act.reg)
  {
    xs := if act.Read? then [Sample(act.reg, ReadReg(h, s.mem, act.reg), |s.history|)] else [];
  }

  lemma AnswersJoin(xs: seq<Sample>, regs: seq<Reg>, n: nat, ys: seq<Sample>, more: seq<Reg>, m: nat)
    requires Answered(xs, regs, n) && Answered(ys, more, m) && n <= m
    ensures Answered(xs + ys, regs + more, n)
  {
  }

  lemma InOrder(a: seq<Sample>, b: seq<Sample>, c: seq<Sample>)
    ensures a + b + c == a + (b + c)
  {
  }

  /**
    Each read returns a value, and none is out of date: it has seen at least the stores which had been
    made when the run began, whichever state one counts from.
  */
  lemma {:induction false} ReadsAreFresh(h: Host, s: State, steps: seq<Step>, s': State) returns (xs: seq<Sample>)
    requires Run(h, s, steps, s')
    ensures s.history <= s'.history && s'.samples == s.samples + xs && Answered(xs, Regs(steps), |s.history|)
    decreases |steps|
  {
    if steps == [] {
      xs := [];
    } else {
      var s1 := Apply(h, s, steps[0].i, steps[0].act);
      var first := ReadAnswers(h, s, steps[0].i, steps[0].act);
      var rest := ReadsAreFresh(h, s1, steps[1..], s');
      AnswersJoin(first, RegOf(steps[0]), |s.history|, rest, Regs(steps[1..]), |s1.history|);
      InOrder(s.samples, first, rest);
      xs := first + rest;
    }
  }
}
