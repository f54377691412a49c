/** Every call comes back, whatever the schedule, as long as hardware which was started interrupts. */
module DmaProgress {
  import opened DmaChannel
  import opened DmaScenarios

  predicate IsCall(st: Step) {
    st.CallWait? || st.CallPlain?
  }

  /** More than the steps a thread and the hardware still make for its call. */
  function ThreadWork(pc: Pc): nat {
    match pc
    case Mark(_) => 30
    case Reset(_, _) => 29
    case Take(_, _) => 28
    case Check(_, _) => 27
    case Setup(_, _) => 26
    case Cache(_, _) => 25
    case Own(_, _) => 24
    case Start(_, _) => 23
    case Undo => 22
    case Give => 21
    case Await => 2
    case Result => 1
    case Idle => 0
  }

  function ThreadsWork(ids: seq<Dma>): nat {
    if ids == [] then 0 else ThreadsWork(ids[..|ids| - 1]) + ThreadWork(ids[|ids| - 1].pc)
  }

  function HardwareWork(s: State): nat {
    if s.flight then 9 else if s.isr.NoIsr? then 0 else
      match s.isr
      case ITest(_) => 8
      case IStatus(_) => 7
      case ICall => 6
      case IUnmark => 5
      case IWake => 4
      case IUser => 3
      case IClear => 2
      case _ => 1
  }

  function Work(s: State): nat {
    ThreadsWork(s.ids) + HardwareWork(s)
  }

  lemma {:induction false} WorkOfOne(ids: seq<Dma>, d: nat, x: Dma)
    requires d < |ids|
    ensures ThreadsWork(ids[d := x]) + ThreadWork(ids[d].pc) == ThreadsWork(ids) + ThreadWork(x.pc)
  {
    var n := |ids| - 1;
    if d == n {
      assert ids[d := x][..n] == ids[..n];
    } else {
      assert ids[d := x][..n] == ids[..n][d := x];
      WorkOfOne(ids[..n], d, x);
    }
  }

  lemma GoCounts(s: State, d: nat, ok: bool)
    requires Inv(false, s) && Enabled(s, Go(d, ok))
    ensures Work(ThreadStep(s, d, ok)) < Work(s)
  {
    var s' := ThreadStep(s, d, ok);
    ThreadFrame(s, d, ok);
    WorkOfOne(s.ids, d, s'.ids[d]);
    if HoldsChannel(s.ids[d].pc) {
      HolderCounts(s, d, ok);
    } else {
      OtherCounts(s, d, ok);
    }
  }

  lemma HolderCounts(s: State, d: nat, ok: bool)
    requires Inv(false, s) && Enabled(s, Go(d, ok)) && HoldsChannel(s.ids[d].pc)
    ensures var s' := ThreadStep(s, d, ok);
      ThreadWork(s'.ids[d].pc) + HardwareWork(s') < ThreadWork(s.ids[d].pc) + HardwareWork(s)
  {
    assert !s.flight && s.isr.NoIsr?;
  }

  lemma OtherCounts(s: State, d: nat, ok: bool)
    requires Enabled(s, Go(d, ok)) && !HoldsChannel(s.ids[d].pc)
    ensures var s' := ThreadStep(s, d, ok);
      ThreadWork(s'.ids[d].pc) + HardwareWork(s') < ThreadWork(s.ids[d].pc) + HardwareWork(s)
  {
    assert ThreadStep(s, d, ok).isr == s.isr && ThreadStep(s, d, ok).flight == s.flight;
  }

  lemma IsrCounts(s: State)
    requires Inv(false, s) && Enabled(s, Isr)
    ensures Work(IsrStep(s)) < Work(s)
  {
    var s' := IsrStep(s);
    if s.inProgress.Some? {
      var d := s.inProgress.value;
      assert s'.ids == s.ids[d := s'.ids[d]] && s'.ids[d].pc == s.ids[d].pc;
      WorkOfOne(s.ids, d, s'.ids[d]);
    } else {
      assert s'.ids == s.ids;
    }
  }

  /** Whatever the schedule, a run without new calls has fewer steps than there is work left. */
  lemma {:induction false} EveryScheduleEnds(s: State, steps: seq<Step>, s': State)
    requires Inv(false, s) && Run(false, s, steps, s') && forall st <- steps :: !IsCall(st)
    ensures Work(s') + |steps| <= Work(s)
    decreases |steps|
  {
    if steps != [] {
      var st := steps[0];
      assert st in steps && forall x <- steps[1..] :: x in steps;
      match st {
        case Go(d, ok) => GoCounts(s, d, ok);
        case Isr => IsrCounts(s);
        case Interrupt(_) =>
          assert Apply(s, st).ids == s.ids;
        case _ =>
      }
      StepKeepsInv(false, s, st);
      EveryScheduleEnds(Apply(s, st), steps[1..], s');
    }
  }

  /** And where nothing can go on without a new call, every call has returned and the channel is free. */
  lemma NobodyIsStuck(s: State)
    requires Reachable(false, s)
    requires forall st :: Enabled(s, st) ==> IsCall(st)
    ensures ChannelFree(s) && forall d: nat | d < |s.ids| :: s.ids[d].pc.Idle?
  {
    ReachableInv(false, s);
    assert !Enabled(s, Interrupt(0)) && !Enabled(s, Isr);
    forall d: nat | d < |s.ids|
      ensures !HoldsChannel(s.ids[d].pc)
    {
      assert !Enabled(s, Go(d, true));
    }
    assert s.full;
    FreeWhenFull(s);
    forall d: nat | d < |s.ids|
      ensures s.ids[d].pc.Idle?
    {
      assert !Enabled(s, Go(d, true));
      WakeUpArrivesNow(s, d);
    }
  }

  lemma WakeUpArrivesNow(s: State, d: nat)
    requires Inv(false, s) && d < |s.ids| && s.full
    ensures s.ids[d].pc.Await? ==> s.ids[d].evt
  {
    FreeWhenFull(s);
    assert IdOk(false, s, d);
  }
}
