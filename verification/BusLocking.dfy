/**
  Any number of records performing output operations on shared registers under the mutexes of
  their devices, and reading registers without a lock. Lock, read, merge, store and unlock are
  separate steps of an arbitrary interleaving.
*/
module BusLocking {
  import opened BusMemory
  import opened BusAccess
  import opened BusRegister

  /** One execution of `write_bo` (`masked` if MASK is set) or `write_mbbo` (always masked). */
  datatype Op = Op(reg: Reg, masked: bool, mask: bv32, value: bv32)

  datatype Pc =
    | Idle
    | Lock(op: Op)
    | Fetch(op: Op)
    | Modify(op: Op, data: bv32)
    | Store(op: Op, data: bv32)
    | Unlock

  /** The addresses of the registers of a device. */
  datatype Range = Range(lo: nat, hi: nat)

  /** The mutex of a device. */
  datatype Mutex = Free | Held(owner: nat)

  datatype Thread = Thread(dev: nat, pc: Pc)

  /** What an unlocked read returned after the first `seen` stores. */
  datatype Sample = Sample(reg: Reg, value: bv32, seen: nat)

  datatype State = State(
    mem: seq<bv8>,
    devs: seq<Range>,
    mutexes: seq<Mutex>,
    threads: seq<Thread>,
    history: seq<Patch>,    // the stores so far
    samples: seq<Sample>)

  datatype Action =
    | Begin(op: Op)
    | Go
    | Refuse                // the read routine reports an error: leave without storing
    | Read(reg: Reg)

  function Effect(h: Host, op: Op): (p: Patch)
    ensures p.Valid()
  {
    PatchOf(h, op.reg, if op.masked then op.mask else 0xffffffff, op.value)
  }

  predicate InDevice(d: Range, reg: Reg) {
    d.lo <= reg.addr && reg.addr + Width(reg.acc) <= d.hi
  }

  predicate ThreadOk(devs: seq<Range>, t: Thread) {
    t.dev < |devs| && (t.pc.Idle? || t.pc.Unlock? || InDevice(devs[t.dev], t.pc.op.reg))
  }

  predicate WellFormed(s: State) {
    && |s.mutexes| == |s.devs|
    && (forall d | 0 <= d < |s.devs| :: s.devs[d].lo <= s.devs[d].hi <= |s.mem|)
    && (forall k | 0 <= k < |s.threads| :: ThreadOk(s.devs, s.threads[k]))
  }

  predicate Enabled(s: State, i: nat, act: Action) {
    && WellFormed(s) && i < |s.threads|
    && var t := s.threads[i];
       match act
       case Begin(op) => t.pc.Idle? && InDevice(s.devs[t.dev], op.reg)
       case Go => !t.pc.Idle? && (t.pc.Lock? ==> s.mutexes[t.dev].Free?)
       case Refuse => t.pc.Fetch? && t.pc.op.masked
       case Read(reg) => Fits(s.mem, reg)
  }

  function Goto(s: State, i: nat, pc: Pc): State
    requires i < |s.threads|
  {
    s.(threads := s.threads[i := s.threads[i].(pc := pc)])
  }

  /** The data a thread takes to its next step: what it reads, what it merges, what it writes. */
  function Computed(h: Host, s: State, pc: Pc): bv32 {
    match pc
    case Fetch(op) => if op.masked && Fits(s.mem, op.reg) then ReadReg(h, s.mem, op.reg) else op.value
    case Modify(op, data) => Or(AndNot(data, op.mask), And(op.value, op.mask))
    case _ => 0
  }

  /** The memory after the next step of a thread. */
  function MemAfter(h: Host, s: State, pc: Pc): (mem: seq<bv8>)
    ensures |mem| == |s.mem|
  {
    if pc.Store? && Fits(s.mem, pc.op.reg) then StoreReg(h, s.mem, pc.op.reg, pc.data) else s.mem
  }

  /** A step of thread `i`, given the data and the memory it computes. */
  function Next(s: State, i: nat, act: Action, v: bv32, mem: seq<bv8>, effect: Patch): State
    requires Enabled(s, i, act)
  {
    var t := s.threads[i];
    match act
    case Begin(op) => Goto(s, i, Lock(op))
    case Refuse => Goto(s, i, Unlock)
    case Read(reg) => s.(samples := s.samples + [Sample(reg, v, |s.history|)])
    case Go =>
      match t.pc
      case Lock(op) => Goto(s.(mutexes := s.mutexes[t.dev := Held(i)]), i, Fetch(op))
      case Fetch(op) => Goto(s, i, if op.masked then Modify(op, v) else Store(op, v))
      case Modify(op, data) => Goto(s, i, Store(op, v))
      case Store(op, data) => Goto(s.(mem := mem, history := s.history + [effect]), i, Unlock)
      case Unlock => Goto(s.(mutexes := s.mutexes[t.dev := Free]), i, Idle)
  }

  function Apply(h: Host, s: State, i: nat, act: Action): State
    requires Enabled(s, i, act)
  {
    var pc := s.threads[i].pc;
    Next(s, i, act,
      if act.Read? then ReadReg(h, s.mem, act.reg) else Computed(h, s, pc),
      MemAfter(h, s, pc),
      if pc.Store? then Effect(h, pc.op) else Patch(0, [], []))
  }

  predicate Holds(pc: Pc) {
    pc.Fetch? || pc.Modify? || pc.Store? || pc.Unlock?
  }

  /** Registers of different devices do not overlap. */
  predicate Separate(devs: seq<Range>) {
    forall d, e | 0 <= d < e < |devs| :: devs[d].hi <= devs[e].lo || devs[e].hi <= devs[d].lo
  }

  ghost predicate LocksOk(s: State) {
    forall k | 0 <= k < |s.threads| && s.threads[k].dev < |s.mutexes| ::
      Holds(s.threads[k].pc) <==> s.mutexes[s.threads[k].dev] == Held(k)
  }

  /** What a thread inside its critical section has read is still what the register holds. */
  ghost predicate DataOk(h: Host, mem: seq<bv8>, pc: Pc) {
    match pc
    case Modify(op, data) => Fits(mem, op.reg) && op.masked && data == ReadReg(h, mem, op.reg)
    case Store(op, data) =>
      Fits(mem, op.reg) && data == if op.masked then Merge(ReadReg(h, mem, op.reg), op.mask, op.value) else op.value
    case _ => true
  }

  ghost predicate HistoryOk(h: Host, mem0: seq<bv8>, s: State) {
    && AllValid(s.history) && s.mem == Replay(mem0, s.history)
    && forall k | 0 <= k < |s.samples| ::
         && s.samples[k].seen <= |s.history| && Fits(mem0, s.samples[k].reg)
         && s.samples[k].value == ReadReg(h, Replay(mem0, s.history[..s.samples[k].seen]), s.samples[k].reg)
  }

  ghost predicate Inv(h: Host, mem0: seq<bv8>, s: State) {
    && WellFormed(s) && Separate(s.devs) && LocksOk(s)
    && (forall i | 0 <= i < |s.threads| :: DataOk(h, s.mem, s.threads[i].pc))
    && HistoryOk(h, mem0, s)
  }

  /** Nothing has happened yet. */
  ghost predicate AtStart(s: State) {
    && WellFormed(s) && s.history == [] && s.samples == []
    && (forall d | 0 <= d < |s.mutexes| :: s.mutexes[d].Free?)
    && (forall k | 0 <= k < |s.threads| :: s.threads[k].pc.Idle?)
  }

  ghost predicate Initial(mem0: seq<bv8>, s: State) {
    s.mem == mem0 && AtStart(s) && Separate(s.devs)
  }

  /** A store of one device leaves the registers of another one alone. */
  lemma OtherRegister(h: Host, mem: seq<bv8>, reg: Reg, v: bv32, other: Reg)
    requires Fits(mem, reg) && Fits(mem, other)
    requires reg.addr + Width(reg.acc) <= other.addr || other.addr + Width(other.acc) <= reg.addr
    ensures Bytes(StoreReg(h, mem, reg, v), other) == Bytes(mem, other)
  {
  }

  lemma StoreIsEffect(h: Host, mem: seq<bv8>, op: Op, data: bv32)
    requires Fits(mem, op.reg)
    requires data == if op.masked then Merge(ReadReg(h, mem, op.reg), op.mask, op.value) else op.value
    ensures StoreReg(h, mem, op.reg, data) == MaskedWrite(mem, Effect(h, op))
  {
    if op.masked {
      ReadModifyWrite(h, mem, op.reg, op.mask, op.value);
    } else {
      PlainWrite(h, mem, op.reg, op.value);
    }
  }

  lemma StepShape(s: State, i: nat, act: Action, v: bv32, mem: seq<bv8>, effect: Patch)
    requires Enabled(s, i, act) && Separate(s.devs) && LocksOk(s) && |mem| == |s.mem|
    ensures var s' := Next(s, i, act, v, mem, effect); WellFormed(s') && Separate(s'.devs) && LocksOk(s')
  {
  }

  /** Threads on other devices keep valid data while thread `i` stores. */
  lemma DataKept(h: Host, s: State, i: nat, k: nat, mem: seq<bv8>)
    requires WellFormed(s) && Separate(s.devs) && LocksOk(s) && i < |s.threads| && k < |s.threads| && k != i
    requires s.threads[i].pc.Store? && Fits(s.mem, s.threads[i].pc.op.reg)
    requires mem == StoreReg(h, s.mem, s.threads[i].pc.op.reg, s.threads[i].pc.data)
    requires DataOk(h, s.mem, s.threads[k].pc)
    ensures DataOk(h, mem, s.threads[k].pc)
  {
    var t, u := s.threads[i], s.threads[k];
    if u.pc.Modify? || u.pc.Store? {
      assert ThreadOk(s.devs, t) && ThreadOk(s.devs, u);
      assert s.mutexes[t.dev] == Held(i) && s.mutexes[u.dev] == Held(k);
      OtherRegister(h, s.mem, t.pc.op.reg, t.pc.data, u.pc.op.reg);
    }
  }

  lemma OwnData(h: Host, s: State, i: nat, act: Action)
    requires Enabled(s, i, act) && DataOk(h, s.mem, s.threads[i].pc)
    ensures var s' := Apply(h, s, i, act); DataOk(h, s'.mem, s'.threads[i].pc)
  {
    assert ThreadOk(s.devs, s.threads[i]);
  }

  ghost predicate SampleOk(h: Host, mem0: seq<bv8>, history: seq<Patch>, x: Sample)
    requires AllValid(history)
  {
    && x.seen <= |history| && Fits(mem0, x.reg)
    && x.value == ReadReg(h, Replay(mem0, history[..x.seen]), x.reg)
  }

  lemma SampleStays(h: Host, mem0: seq<bv8>, history: seq<Patch>, p: Patch, x: Sample)
    requires AllValid(history) && p.Valid() && SampleOk(h, mem0, history, x)
    ensures AllValid(history + [p]) && SampleOk(h, mem0, history + [p], x)
  {
    assert (history + [p])[..x.seen] == history[..x.seen];
  }

  lemma HistoryKept(h: Host, mem0: seq<bv8>, s: State, i: nat, act: Action)
    requires Inv(h, mem0, s) && Enabled(s, i, act)
    ensures HistoryOk(h, mem0, Apply(h, s, i, act))
  {
    var s' := Apply(h, s, i, act);
    var pc := s.threads[i].pc;
    assert ThreadOk(s.devs, s.threads[i]);
    if act.Read? {
      assert s.history[..|s.history|] == s.history;
      assert SampleOk(h, mem0, s.history, Sample(act.reg, ReadReg(h, s.mem, act.reg), |s.history|));
    } else if act.Go? && pc.Store? {
      var p := Effect(h, pc.op);
      assert DataOk(h, s.mem, pc);
      StoreIsEffect(h, s.mem, pc.op, pc.data);
      ReplayPrefix(mem0, s.history, p);
      forall k | 0 <= k < |s.samples|
        ensures SampleOk(h, mem0, s'.history, s.samples[k])
      {
        SampleStays(h, mem0, s.history, p, s.samples[k]);
      }
    }
  }

  lemma StepKeepsInv(h: Host, mem0: seq<bv8>, s: State, i: nat, act: Action)
    requires Inv(h, mem0, s) && Enabled(s, i, act)
    ensures Inv(h, mem0, Apply(h, s, i, act))
  {
    var s', pc := Apply(h, s, i, act), s.threads[i].pc;
    assert ThreadOk(s.devs, s.threads[i]);
    StepShape(s, i, act, if act.Read? then ReadReg(h, s.mem, act.reg) else Computed(h, s, pc), MemAfter(h, s, pc),
      if pc.Store? then Effect(h, pc.op) else Patch(0, [], []));
    HistoryKept(h, mem0, s, i, act);
    OwnData(h, s, i, act);
    forall k | 0 <= k < |s'.threads| && k != i
      ensures DataOk(h, s'.mem, s'.threads[k].pc)
    {
      if act.Go? && pc.Store? {
        DataKept(h, s, i, k, s'.mem);
      }
    }
  }

  // ---------------------------------------------------------------- runs

  datatype Step = Step(i: nat, act: Action)

  ghost predicate Run(h: Host, s: State, steps: seq<Step>, s': State)
    decreases |steps|
  {
    if steps == [] then s == s'
    else Enabled(s, steps[0].i, steps[0].act) && Run(h, Apply(h, s, steps[0].i, steps[0].act), steps[1..], s')
  }

  lemma {:induction false} RunKeepsInv(h: Host, mem0: seq<bv8>, s: State, steps: seq<Step>, s': State)
    requires Inv(h, mem0, s) && Run(h, s, steps, s')
    ensures Inv(h, mem0, s')
    decreases |steps|
  {
    if steps != [] {
      StepKeepsInv(h, mem0, s, steps[0].i, steps[0].act);
      RunKeepsInv(h, mem0, Apply(h, s, steps[0].i, steps[0].act), steps[1..], s');
    }
  }

  ghost predicate Reachable(h: Host, mem0: seq<bv8>, s: State) {
    exists s0, steps :: Initial(mem0, s0) && Run(h, s0, steps, s)
  }

  lemma ReachableInv(h: Host, mem0: seq<bv8>, s: State)
    requires Reachable(h, mem0, s)
    ensures Inv(h, mem0, s)
  {
    var s0, steps :| Initial(mem0, s0) && Run(h, s0, steps, s);
    RunKeepsInv(h, mem0, s0, steps, s);
  }

  /**
    In every interleaving, each bit of the memory is what the last store covering it was meant
    to put there: no update of any record is lost or undone by another one.
  */
  lemma LastWriteWins(h: Host, mem0: seq<bv8>, s: State, a: nat, bit: bv8)
    requires Reachable(h, mem0, s) && a < |mem0| && IsBit(bit)
    ensures AllValid(s.history) && a < |s.mem|
    ensures s.mem[a] & bit == LastWriter(mem0, s.history, a, bit)
  {
    ReachableInv(h, mem0, s);
    ReplayIsLastWriter(mem0, s.history, a, bit);
  }

  /** A read without lock returns what the register held after the first `seen` stores. */
  lemma ReadsSeeAPrefix(h: Host, mem0: seq<bv8>, s: State, k: nat)
    requires Reachable(h, mem0, s) && k < |s.samples|
    ensures var x := s.samples[k];
      && AllValid(s.history) && x.seen <= |s.history| && Fits(mem0, x.reg)
      && x.value == ReadReg(h, Replay(mem0, s.history[..x.seen]), x.reg)
  {
    ReachableInv(h, mem0, s);
  }
}
